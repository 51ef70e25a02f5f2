/** The catalog builder with its fields updated in place, and the snapshots it publishes:
    `internal/filesearch/catalog.go`. */
module Catalog {
  import opened Ordering
  import opened ByteStrings
  import opened CandidateHeap
  import opened FileSearch
  import opened CatalogSearch
  import opened CatalogBuilder
  import opened Wrappers

  function Min(a: int, b: int): int {
    if a < b then a else b
  }

  /** How many records a segment takes. */
  function SegmentSize(recordLimit: nat): (size: nat)
    ensures 1 <= size <= SEGMENT_SIZE
  {
    Min(SEGMENT_SIZE, if recordLimit / RECORD_BYTES < 1 then 1 else recordLimit / RECORD_BYTES)
  }

  /** The default results as a snapshot lists them: by tier, quality and path. */
  ghost predicate BestDefaults(defaults: seq<Found>, accepted: seq<File>, lower: Bytes -> Bytes) {
    exists ranked: seq<Candidate> :: IsFirst(BetterThan, ranked, DefaultCandidates(accepted, lower), DEFAULT_RESULT_LIMIT)
      && |defaults| == |ranked| && forall i :: 0 <= i < |ranked| ==> defaults[i] == ranked[i].result
  }

  /** A published snapshot of a builder that had accepted these files. */
  ghost predicate Publishes(s: Snapshot, accepted: seq<File>, lower: Bytes -> Bytes, limit: nat, reserve: nat,
      addressable: bool)
  {
    && s.memory <= limit
    && (addressable ==> SegmentsHold(s.segments, accepted, lower))
    && (s.complete && !s.overflow ==> s.duplicates.Some? && CountsNames(s.duplicates.value, accepted, lower))
    && (Ample(accepted, reserve) ==> BestDefaults(s.defaults, accepted, lower))
  }

  class Builder {
    const lower: Bytes -> Bytes
    const limit: nat
    const recordLimit: nat
    const reserve: nat
    const segmentSize: nat
    const defaults: array<Candidate>
    var segments: seq<Segment>
    var memory: nat
    var overflow: bool
    var paths: Bytes
    var folded: Bytes
    var records: seq<Record>
    var duplicates: map<Bytes, nat>
    var duplicateMemory: nat
    var defaultCount: nat
    var defaultMemory: nat
    var sealed: bool
    var final: Snapshot
    ghost var accepted: seq<File>
    ghost var addressable: bool // every accepted path was addressable when it came

    ghost function View(): Core
      reads this
    {
      Core(segments, memory, paths, folded, records, duplicates, duplicateMemory)
    }

    ghost function Defaults(): seq<Candidate>
      reads this, defaults
      requires defaultCount <= defaults.Length
    {
      defaults[..defaultCount]
    }

    ghost predicate Valid()
      reads this, defaults
    {
      && defaults.Length == DEFAULT_RESULT_LIMIT && defaultCount <= defaults.Length
      && recordLimit + reserve == limit && 1 <= segmentSize <= SEGMENT_SIZE
      && CoreOk(View(), accepted, lower, recordLimit, limit, addressable) && |records| < segmentSize
      && (WellLimited() ==> addressable)
      && DefaultsOk(Defaults(), defaultMemory, accepted, lower, reserve)
      && (sealed ==> final.complete && final.overflow == overflow && final.segments == segments && records == []
                     && Publishes(final, accepted, lower, limit, reserve, addressable))
    }

    /** Limits and paths for which every path that fits is addressable. */
    ghost predicate WellLimited()
      reads this
    {
      limit <= UINT32 || Compact(accepted, lower)
    }

    /** All the memory the builder accounts for. */
    ghost function Total(): nat
      reads this
    {
      Accounted(View()) + defaultMemory
    }

    constructor (limit: int, lower: Bytes -> Bytes)
      ensures Valid() && fresh(defaults) && accepted == [] && !sealed && !overflow && addressable && this.lower == lower
      ensures this.limit == if limit <= 0 then DEFAULT_MEMORY_LIMIT else limit
      ensures reserve == Min(this.limit, DEFAULT_RESULT_LIMIT * (CANDIDATE_BYTES + LONG_PATH))
    {
      var bound := if limit <= 0 then DEFAULT_MEMORY_LIMIT else limit;
      var kept := Min(bound, DEFAULT_RESULT_LIMIT * (CANDIDATE_BYTES + LONG_PATH));
      this.limit, this.lower, reserve, recordLimit := bound, lower, kept, bound - kept;
      segmentSize := SegmentSize(bound - kept);
      segments, memory, overflow, paths, folded, records := [], 0, false, [], [], [];
      duplicates, duplicateMemory, defaultCount, defaultMemory := map[], 0, 0, 0;
      sealed, final, accepted, addressable := false, Snapshot([], None, false, false, 0, []), [], true;
      defaults := new Candidate[DEFAULT_RESULT_LIMIT](_ => Candidate(Found([], [], [], false, false), 0, 0));
      new;
      hide CoreOk, DefaultsOk, Publishes, Compact;
      EmptyIsOk(lower, recordLimit, this.limit);
      NoDefaultsIsOk(lower, reserve);
      assert defaults[..0] == [];
    }

    /** False when the limit was reached or the builder is sealed; nothing changes then but the overflow mark. */
    method Add(path: Bytes, ignored: bool) returns (ok: bool)
      requires Valid()
      modifies this, defaults
      ensures Valid() && sealed == old(sealed) && final == old(final)
      ensures ok <==> !old(overflow) && !old(sealed) && Fits(old(View()), path, lower, recordLimit)
      ensures overflow == (old(overflow) || (!old(sealed) && !Fits(old(View()), path, lower, recordLimit)))
      ensures ok ==> accepted == old(accepted) + [File(path, ignored)]
      ensures addressable == (old(addressable) && (ok ==> Addressable(old(View()), path, lower)))
      ensures !ok ==> accepted == old(accepted) && View() == old(View()) && Defaults() == old(Defaults())
      ensures old(segments) <= segments
    {
      hide CoreOk, DefaultsOk, Fits, Publishes, Appended, Compact, Addressable;
      if overflow || sealed { return false; }
      var fits := FitsNow(path);
      if !fits {
        overflow := true;
        return false;
      }
      Accept(path, ignored);
      if |records| >= segmentSize { Freeze(); }
      ok := true;
    }

    method Accept(path: Bytes, ignored: bool)
      requires Valid() && Fits(View(), path, lower, recordLimit)
      modifies this`paths, this`folded, this`records, this`duplicates, this`duplicateMemory
      modifies this`defaultCount, this`defaultMemory, defaults, this`accepted, this`addressable
      ensures View() == Appended(old(View()), path, ignored, lower) && |records| == |old(records)| + 1
      ensures accepted == old(accepted) + [File(path, ignored)]
      ensures addressable == (old(addressable) && Addressable(old(View()), path, lower))
      ensures CoreOk(View(), accepted, lower, recordLimit, limit, addressable) && (WellLimited() ==> addressable)
      ensures defaultCount <= defaults.Length && DefaultsOk(Defaults(), defaultMemory, accepted, lower, reserve)
    {
      hide CoreOk, DefaultsOk, Fits, Publishes, Appended, Compact, Addressable;
      AppendKeeps(View(), accepted, path, ignored, lower, recordLimit, limit, addressable);
      ghost var room := Addressable(View(), path, lower);
      WellLimitedStays(accepted, File(path, ignored), room);
      AppendRecord(path, ignored);
      AddDefault(File(path, ignored), accepted);
      accepted, addressable := accepted + [File(path, ignored)], addressable && room;
    }

    /** Well limited with one more path it was so before, and that path is addressable. */
    ghost method WellLimitedStays(before: seq<File>, f: File, room: bool)
      requires Valid() && before == accepted && room == Addressable(View(), f.path, lower)
      requires Fits(View(), f.path, lower, recordLimit)
      ensures limit <= UINT32 || Compact(before + [f], lower) ==> addressable && room
    {
      hide Decodes, Publishes, Fits;
      if limit <= UINT32 || Compact(before + [f], lower) {
        WhatFitsIsAddressable(View(), accepted, f.path, f.ignored, lower, recordLimit, limit, addressable);
        if limit > UINT32 { CompactFront(before, f, lower); }
      }
    }

    method AppendRecord(path: Bytes, ignored: bool)
      modifies this`paths, this`folded, this`records, this`duplicates, this`duplicateMemory
      ensures View() == Appended(old(View()), path, ignored, lower)
      ensures |records| == |old(records)| + 1
    {
      hide NewRecord, FoldName;
      var name := FoldName(path, lower);
      var record := NewRecord(Core(segments, memory, paths, folded, records, duplicates, duplicateMemory), path, ignored, lower);
      paths, folded, records := paths + path, folded + lower(path), records + [record];
      if name !in duplicates { duplicateMemory := duplicateMemory + |name| + 64; }
      duplicates := duplicates[name := (if name in duplicates then duplicates[name] else 0) + 1];
    }

    method FitsNow(path: Bytes) returns (fits: bool)
      requires Valid()
      ensures fits == Fits(View(), path, lower, recordLimit)
    {
      var name := FoldName(path, lower);
      var nameMemory := if name in duplicates then 0 else |name| + 64;
      var projected := |paths| + |path| + |folded| + |lower(path)| + (|records| + 1) * RECORD_BYTES + SEGMENT_BYTES;
      fits := memory + duplicateMemory + projected + nameMemory <= recordLimit;
    }

    method AddDefault(file: File, ghost before: seq<File>)
      requires defaults.Length == DEFAULT_RESULT_LIMIT && defaultCount <= defaults.Length
      requires defaultCount <= DEFAULT_RESULT_LIMIT && DefaultsOk(Defaults(), defaultMemory, before, lower, reserve)
      modifies this`defaultCount, this`defaultMemory, defaults
      ensures defaultCount <= defaults.Length && DefaultsOk(Defaults(), defaultMemory, before + [file], lower, reserve)
    {
      hide BetterThan, DefaultsOk, DefaultCandidate;
      var entry := DefaultCandidate(file, lower);
      var entryMemory := CandidateMemory(entry);
      if defaultCount < DEFAULT_RESULT_LIMIT && defaultMemory + entryMemory <= reserve {
        AppendDefault(file, before);
      } else if defaultCount == 0 || !BetterThan(entry, defaults[0])
             || defaultMemory + entryMemory - CandidateMemory(defaults[0]) > reserve {
        DefaultKept(Defaults(), defaultMemory, before, file, lower, reserve);
      } else {
        ReplaceDefault(file, before);
      }
    }

    method AppendDefault(file: File, ghost before: seq<File>)
      requires defaults.Length == DEFAULT_RESULT_LIMIT && defaultCount < defaults.Length
      requires DefaultsOk(Defaults(), defaultMemory, before, lower, reserve)
      requires defaultMemory + CandidateMemory(DefaultCandidate(file, lower)) <= reserve
      modifies this`defaultCount, this`defaultMemory, defaults
      ensures defaultCount <= defaults.Length && DefaultsOk(Defaults(), defaultMemory, before + [file], lower, reserve)
    {
      hide BetterThan, HeapExcept, DefaultsOk, DefaultCandidate;
      ghost var kept := Defaults();
      var entry := DefaultCandidate(file, lower);
      defaults[defaultCount] := entry;
      defaultCount := defaultCount + 1;
      assert Defaults() == kept + [entry];
      HeapInit(defaults, defaultCount);
      DefaultAppended(kept, Defaults(), defaultMemory, before, file, lower, reserve);
      defaultMemory := defaultMemory + CandidateMemory(entry);
    }

    method ReplaceDefault(file: File, ghost before: seq<File>)
      requires defaults.Length == DEFAULT_RESULT_LIMIT && 0 < defaultCount <= defaults.Length
      requires DefaultsOk(Defaults(), defaultMemory, before, lower, reserve)
      requires var entry := DefaultCandidate(file, lower);
        && (defaultCount < DEFAULT_RESULT_LIMIT ==> defaultMemory + CandidateMemory(entry) > reserve)
        && BetterThan(entry, defaults[0])
        && defaultMemory + CandidateMemory(entry) - CandidateMemory(defaults[0]) <= reserve
      modifies this`defaultMemory, defaults
      ensures DefaultsOk(Defaults(), defaultMemory, before + [file], lower, reserve)
    {
      hide BetterThan, HeapExcept, DefaultsOk, DefaultCandidate;
      ghost var kept := Defaults();
      var entry := DefaultCandidate(file, lower);
      var delta := CandidateMemory(entry) - CandidateMemory(defaults[0]);
      RootMayChange(kept, defaultMemory, before, entry, lower, reserve);
      defaults[0] := entry;
      assert defaults[..defaultCount] == kept[0 := entry];
      HeapDown(defaults, defaultCount, 0);
      assert IsHeap(Defaults());
      DefaultReplaced(kept, Defaults(), defaultMemory, before, file, lower, reserve);
      defaultMemory := defaultMemory + delta;
    }

    /** Moving the pending records into a segment changes nothing in what is accounted or accepted, and now
        the segments alone hold the accepted files. */
    method Freeze()
      requires CoreOk(View(), accepted, lower, recordLimit, limit, addressable)
      modifies this`segments, this`memory, this`paths, this`folded, this`records
      ensures CoreOk(View(), accepted, lower, recordLimit, limit, addressable) && View() == Frozen(old(View()))
      ensures Accounted(View()) == old(Accounted(View())) && records == [] && old(segments) <= segments
      ensures addressable ==> SegmentsHold(segments, accepted, lower)
    {
      hide CoreOk, SegmentsHold;
      FreezeKeeps(View(), accepted, lower, recordLimit, limit, addressable);
      if |records| == 0 { return; }
      var segment := Segment(paths, folded, records);
      memory := memory + |segment.paths| + |segment.folded| + |segment.records| * RECORD_BYTES + SEGMENT_BYTES;
      segments := segments + [segment];
      paths, folded, records := [], [], [];
    }

    method TakeSnapshot(complete: bool) returns (s: Snapshot)
      requires Valid()
      modifies this
      ensures Valid() && accepted == old(accepted) && old(segments) <= segments && Total() == old(Total())
      ensures s.segments == segments && records == [] && s.complete == complete && s.overflow == overflow == old(overflow)
      ensures Publishes(s, accepted, lower, limit, reserve, addressable) && (WellLimited() ==> addressable)
      ensures sealed == (old(sealed) || complete)
    {
      hide CoreOk, DefaultsOk, Publishes, SegmentsHold;
      if complete && sealed { return final; }
      Freeze();
      var results := DefaultResults();
      s := Snapshot(segments, if complete && !overflow then Some(duplicates) else None, complete, overflow,
        memory + duplicateMemory + defaultMemory, results);
      SnapshotPublishes(View(), defaultMemory, s, accepted, lower, recordLimit, limit, reserve, addressable);
      if complete { sealed, final := true, s; }
    }

    method DefaultResults() returns (results: seq<Found>)
      requires defaultCount <= defaults.Length && DefaultsOk(Defaults(), defaultMemory, accepted, lower, reserve)
      ensures defaultMemory <= reserve
      ensures Ample(accepted, reserve) ==> BestDefaults(results, accepted, lower)
    {
      hide BetterThan, IsHeap, HoldsBest, DistinctPaths, IsFirst;
      BetterOrders(Elements(defaults[..defaultCount]));
      var sorted := Sort(defaults[..defaultCount], BetterThan);
      results := seq(|sorted|, i requires 0 <= i < |sorted| => sorted[i].result);
      if Ample(accepted, reserve) {
        DefaultsAreDistinct(accepted, lower);
        SortedBestIsFirst(Defaults(), sorted, DefaultCandidates(accepted, lower), DEFAULT_RESULT_LIMIT);
      }
    }
  }

  lemma SnapshotPublishes(c: Core, defaultMemory: nat, s: Snapshot, accepted: seq<File>, lower: Bytes -> Bytes,
      recordLimit: nat, limit: nat, reserve: nat, addressable: bool)
    requires CoreOk(c, accepted, lower, recordLimit, limit, addressable)
    requires recordLimit + reserve == limit && defaultMemory <= reserve
    requires s.segments == c.segments && s.memory == c.memory + c.duplicateMemory + defaultMemory
    requires addressable ==> SegmentsHold(c.segments, accepted, lower)
    requires s.complete && !s.overflow ==> s.duplicates == Some(c.duplicates)
    requires Ample(accepted, reserve) ==> BestDefaults(s.defaults, accepted, lower)
    ensures Publishes(s, accepted, lower, limit, reserve, addressable)
  {
  }

  /** A segment holds one list of files only. */
  lemma SegmentDecodesOnce(s: Segment, a: seq<File>, b: seq<File>, lower: Bytes -> Bytes)
    requires SegmentHolds(s, a, lower) && SegmentHolds(s, b, lower)
    ensures a == b
  {
    hide NameStart, CappedDepth, DependencyPath;
    forall i | 0 <= i < |a| ensures a[i] == b[i] {
      assert Encodes(s, s.records[i], a[i], lower) && Encodes(s, s.records[i], b[i], lower);
    }
  }

  /** Segments only ever get appended: what an earlier snapshot holds is a prefix of what a later one holds. */
  lemma {:induction false} LaterSnapshotsExtend(early: seq<Segment>, late: seq<Segment>, before: seq<File>, after: seq<File>, lower: Bytes -> Bytes)
    requires early <= late && SegmentsHold(early, before, lower) && SegmentsHold(late, after, lower)
    ensures before <= after
    decreases |late|
  {
    hide SegmentHolds;
    if late != [] {
      var n := |late| - 1;
      var a, b := |after| - |late[n].records|, |before| - |late[n].records|;
      if |early| == |late| {
        assert early == late;
        SegmentDecodesOnce(late[n], before[b..], after[a..], lower);
        LaterSnapshotsExtend(late[..n], late[..n], before[..b], after[..a], lower);
        LaterSnapshotsExtend(late[..n], late[..n], after[..a], before[..b], lower);
        assert before == before[..b] + before[b..] && after == after[..a] + after[a..];
      } else {
        LaterSnapshotsExtend(early, late[..n], before, after[..a], lower);
      }
    }
  }
}
