/** The hand-written bounded heap of the filename search: `internal/filesearch/catalog.go`. */
module CandidateHeap {
  import opened Ordering
  import opened ByteStrings

  datatype Found = Found(path: Bytes, name: Bytes, parent: Bytes, dependency: bool, ignored: bool)
  datatype Candidate = Candidate(result: Found, tier: nat, quality: int)

  predicate BetterThan(c: Candidate, d: Candidate) {
    || c.tier < d.tier
    || (c.tier == d.tier
        && (c.quality < d.quality || (c.quality == d.quality && Less(c.result.path, d.result.path))))
  }

  lemma BetterIsAsymmetric(c: Candidate, d: Candidate)
    requires BetterThan(c, d)
    ensures !BetterThan(d, c)
  {
    if Less(c.result.path, d.result.path) { LessIsAsymmetric(c.result.path, d.result.path); }
  }

  lemma BetterIsNegativelyTransitive(c: Candidate, d: Candidate, e: Candidate)
    requires BetterThan(c, e)
    ensures BetterThan(c, d) || BetterThan(d, e)
  {
    if c.tier == e.tier && c.quality == e.quality {
      LessIsNegativelyTransitive(c.result.path, d.result.path, e.result.path);
    }
  }

  /** Candidates for distinct paths are totally ordered. */
  ghost predicate DistinctPaths(all: set<Candidate>) {
    forall c, d :: c in all && d in all && c.result.path == d.result.path ==> c == d
  }

  lemma BetterOrders(all: set<Candidate>)
    ensures WeakOrder(BetterThan, all)
    ensures DistinctPaths(all) ==> TotalOrder(BetterThan, all)
  {
    hide Less;
    forall c, d | c in all && d in all && BetterThan(c, d) ensures !BetterThan(d, c) { BetterIsAsymmetric(c, d); }
    forall c, d, e | c in all && d in all && e in all && BetterThan(c, e) ensures BetterThan(c, d) || BetterThan(d, e) {
      BetterIsNegativelyTransitive(c, d, e);
    }
    forall c, d | c in all && d in all ensures c.result.path == d.result.path || BetterThan(c, d) || BetterThan(d, c) {
      LessIsTotal(c.result.path, d.result.path);
    }
  }

  // ------------------------------------------------------ the heap order

  function Parent(i: nat): nat
    requires i > 0
  {
    (i - 1) / 2
  }

  /** Below `top`, no parent is better than its child; position `but` is excused. */
  ghost predicate HeapExcept(s: seq<Candidate>, top: nat, but: int) {
    forall c :: 0 < c < |s| && Parent(c) >= top && Parent(c) != but ==> !BetterThan(s[Parent(c)], s[c])
  }

  ghost predicate IsHeap(s: seq<Candidate>) {
    HeapExcept(s, 0, -1)
  }

  lemma {:induction false} RootIsWorst(s: seq<Candidate>, i: nat)
    requires IsHeap(s) && i < |s|
    ensures !BetterThan(s[0], s[i])
  {
    if i == 0 {
      if BetterThan(s[0], s[0]) { BetterIsAsymmetric(s[0], s[0]); }
    } else {
      RootIsWorst(s, Parent(i));
      if BetterThan(s[0], s[i]) { BetterIsNegativelyTransitive(s[0], s[Parent(i)], s[i]); }
    }
  }

  /** The candidate at `x` is not better than any child of `at`. */
  ghost predicate Over(s: seq<Candidate>, x: nat, at: nat)
    requires x < |s|
  {
    forall c :: 0 < c < |s| && Parent(c) == at ==> !BetterThan(s[x], s[c])
  }

  /** Whatever may be above the excused position is not better than what is below it. */
  ghost predicate Bridged(s: seq<Candidate>, top: nat, at: nat) {
    0 < at < |s| && Parent(at) >= top ==> Over(s, Parent(at), at)
  }

  /** Swapping the worse child up moves the excused position down. */
  lemma SiftStep(s: seq<Candidate>, top: nat, at: nat, child: nat)
    requires top <= at < |s| && 0 < child < |s| && Parent(child) == at
    requires HeapExcept(s, top, at) && Bridged(s, top, at) && Over(s, child, at) && BetterThan(s[at], s[child])
    ensures var t := Swapped(s, at, child);
      HeapExcept(t, top, child) && Bridged(t, top, child)
  {
    BetterIsAsymmetric(s[at], s[child]);
    hide BetterThan;
    var t := s[at := s[child]][child := s[at]];
    forall c | 0 < c < |t| && Parent(c) >= top && Parent(c) != child ensures !BetterThan(t[Parent(c)], t[c]) {
      if c == at {
        assert t[c] == s[child] && t[Parent(c)] == s[Parent(c)];
      } else if Parent(c) == at {
        assert t[at] == s[child];
        assert c != child ==> t[c] == s[c];
      } else {
        assert t[c] == s[c] && t[Parent(c)] == s[Parent(c)];
      }
    }
    forall c | 0 < c < |t| && Parent(c) == child ensures !BetterThan(t[at], t[c]) {
      assert t[at] == s[child] && t[c] == s[c];
    }
  }

  lemma WorseChild(s: seq<Candidate>, at: nat, child: nat)
    requires child < |s|
    requires child == at * 2 + 1 ==> child + 1 < |s| ==> !BetterThan(s[child], s[child + 1])
    requires child == at * 2 + 1 || (child == at * 2 + 2 && BetterThan(s[child - 1], s[child]))
    ensures 0 < child && Parent(child) == at && Over(s, child, at)
  {
    forall c | 0 < c < |s| && Parent(c) == at ensures !BetterThan(s[child], s[c]) {
      assert c == at * 2 + 1 || c == at * 2 + 2;
      if BetterThan(s[child], s[c]) { BetterIsAsymmetric(s[child], s[c]); }
    }
  }

  lemma Settled(s: seq<Candidate>, top: nat, at: nat, child: nat)
    requires HeapExcept(s, top, at) && at < |s| && child < |s| && Over(s, child, at) && !BetterThan(s[at], s[child])
    ensures HeapExcept(s, top, -1)
  {
    forall c | 0 < c < |s| && Parent(c) == at ensures !BetterThan(s[at], s[c]) {
      if BetterThan(s[at], s[c]) { BetterIsNegativelyTransitive(s[at], s[child], s[c]); }
    }
  }

  function Swapped(s: seq<Candidate>, i: nat, j: nat): seq<Candidate>
    requires i < |s| && j < |s|
  {
    s[i := s[j]][j := s[i]]
  }

  lemma SwapPermutes(s: seq<Candidate>, i: nat, j: nat)
    requires i < |s| && j < |s|
    ensures multiset(Swapped(s, i, j)) == multiset(s)
  {
  }

  method Swap(values: array<Candidate>, ghost n: nat, i: nat, j: nat)
    requires i < n <= values.Length && j < n
    modifies values
    ensures values[..n] == Swapped(old(values[..n]), i, j)
    ensures forall k :: n <= k < values.Length ==> values[k] == old(values[k])
  {
    values[i], values[j] := values[j], values[i];
  }

  method HeapDown(values: array<Candidate>, n: nat, root: nat)
    requires root < n <= values.Length && HeapExcept(values[..n], root, root)
    modifies values
    ensures HeapExcept(values[..n], root, -1) && multiset(values[..n]) == old(multiset(values[..n]))
    ensures forall i :: n <= i < values.Length ==> values[i] == old(values[i])
  {
    hide BetterThan, HeapExcept, Bridged, Over, Swapped;
    var at := root;
    ghost var was, now := values[..n], values[..n];
    NothingAbove(now, root);
    while true
      invariant root <= at < n && values[..n] == now && HeapExcept(now, root, at) && Bridged(now, root, at)
      invariant multiset(now) == multiset(was)
      invariant forall i :: n <= i < values.Length ==> values[i] == old(values[i])
      decreases n - at
    {
      var child := at * 2 + 1;
      if child >= n {
        NoChildren(now, root, at);
        return;
      }
      if child + 1 < n && BetterThan(values[child], values[child + 1]) { child := child + 1; }
      assert values[at] == now[at] && values[child] == now[child];
      WorseChild(now, at, child);
      if !BetterThan(values[at], values[child]) {
        Settled(now, root, at, child);
        return;
      }
      SiftStep(now, root, at, child);
      SwapPermutes(now, at, child);
      now := Swapped(now, at, child);
      Swap(values, n, at, child);
      at := child;
    }
  }

  lemma NothingAbove(s: seq<Candidate>, top: nat)
    ensures Bridged(s, top, top)
  {
  }

  lemma NoChildren(s: seq<Candidate>, top: nat, at: nat)
    requires HeapExcept(s, top, at) && at * 2 + 1 >= |s|
    ensures HeapExcept(s, top, -1)
  {
  }

  method HeapInit(values: array<Candidate>, n: nat)
    requires n <= values.Length
    modifies values
    ensures IsHeap(values[..n]) && multiset(values[..n]) == old(multiset(values[..n]))
    ensures forall i :: n <= i < values.Length ==> values[i] == old(values[i])
  {
    hide BetterThan;
    var index := n / 2 - 1;
    while index >= 0
      invariant -1 <= index < n
      invariant HeapExcept(values[..n], index + 1, -1)
      invariant multiset(values[..n]) == old(multiset(values[..n]))
      invariant forall i :: n <= i < values.Length ==> values[i] == old(values[i])
    {
      HeapDown(values, n, index);
      index := index - 1;
    }
  }

  // ------------------------------------------------------ the bounded selection

  /** `kept` are the best `limit` of the candidates offered so far, a heap once there are that many. */
  ghost predicate Holds(kept: seq<Candidate>, offered: set<Candidate>, limit: nat) {
    HoldsBest(kept, offered, limit) && (|kept| == limit ==> IsHeap(kept))
  }

  ghost predicate HoldsBest(kept: seq<Candidate>, offered: set<Candidate>, limit: nat) {
    && Distinct(kept) && |kept| <= limit
    && (forall c :: c in kept ==> c in offered)
    && (forall c :: c in offered && c !in kept ==> |kept| == limit && forall d :: d in kept ==> BetterThan(d, c))
  }

  /** Sorting the selection gives the first candidates of all. */
  lemma SortedBestIsFirst(kept: seq<Candidate>, sorted: seq<Candidate>, offered: set<Candidate>, limit: nat)
    requires DistinctPaths(offered) && HoldsBest(kept, offered, limit)
    requires multiset(sorted) == multiset(kept) && NonDescending(BetterThan, sorted)
    ensures IsFirst(BetterThan, sorted, offered, limit)
  {
    hide BetterThan;
    Rearranged(kept, sorted, offered, limit);
    BetterOrders(offered);
    forall i, j | 0 <= i < j < |sorted| ensures BetterThan(sorted[i], sorted[j]) {
      assert sorted[i] in offered && sorted[j] in offered && sorted[i] != sorted[j];
    }
  }

  lemma OneMoreKept(kept: seq<Candidate>, offered: set<Candidate>, limit: nat, entry: Candidate)
    requires HoldsBest(kept, offered, limit) && |kept| < limit && entry !in offered
    ensures HoldsBest(kept + [entry], offered + {entry}, limit)
  {
    assert forall c :: c in kept + [entry] <==> c in kept || c == entry;
  }

  /** The best do not depend on their order. */
  lemma Rearranged(kept: seq<Candidate>, kept': seq<Candidate>, offered: set<Candidate>, limit: nat)
    requires HoldsBest(kept, offered, limit) && multiset(kept') == multiset(kept)
    ensures HoldsBest(kept', offered, limit)
  {
    SameElements(kept', kept);
    DistinctByMultiset(kept, kept');
  }

  /** A new root may be out of order with its children, and with nothing else. */
  lemma ReplacedRoot(kept: seq<Candidate>, entry: Candidate)
    requires kept != [] && IsHeap(kept)
    ensures HeapExcept(kept[0 := entry], 0, 0)
  {
  }

  lemma Replaced(kept: seq<Candidate>, offered: set<Candidate>, limit: nat, entry: Candidate)
    requires HoldsBest(kept, offered, limit) && |kept| == limit > 0 && IsHeap(kept)
    requires entry !in offered && DistinctPaths(offered + {entry}) && BetterThan(entry, kept[0])
    ensures HoldsBest(kept[0 := entry], offered + {entry}, limit)
  {
    hide BetterThan, IsHeap;
    var replaced := kept[0 := entry];
    forall c ensures c in replaced <==> c == entry || (c in kept && c != kept[0]) { InReplaced(kept, entry, c); }
    forall c, d | c in offered + {entry} && c !in replaced && d in replaced ensures BetterThan(d, c) {
      OthersBeatRoot(kept, offered + {entry}, d);
      assert c == kept[0] || c !in kept;
      if d == entry && c != kept[0] { BetterIsTransitive(entry, kept[0], c); }
    }
  }

  lemma InReplaced(kept: seq<Candidate>, entry: Candidate, c: Candidate)
    requires kept != [] && Distinct(kept) && entry !in kept
    ensures c in kept[0 := entry] <==> c == entry || (c in kept && c != kept[0])
  {
    var replaced := kept[0 := entry];
    assert replaced[0] == entry && forall i :: 0 < i < |kept| ==> replaced[i] == kept[i];
  }

  lemma OthersBeatRoot(kept: seq<Candidate>, all: set<Candidate>, d: Candidate)
    requires kept != [] && IsHeap(kept) && DistinctPaths(all) && forall c :: c in kept ==> c in all
    ensures d in kept ==> d == kept[0] || BetterThan(d, kept[0])
  {
    if d in kept {
      var i :| 0 <= i < |kept| && kept[i] == d;
      RootIsWorst(kept, i);
      BetterOrders(all);
    }
  }

  lemma BetterIsTransitive(c: Candidate, d: Candidate, e: Candidate)
    requires BetterThan(c, d) && BetterThan(d, e)
    ensures BetterThan(c, e)
  {
    BetterIsNegativelyTransitive(c, e, d);
    BetterIsAsymmetric(d, e);
  }

  /** An entry that does not beat the worst kept one is beaten by all of them. */
  lemma NotBetterThanRoot(kept: seq<Candidate>, offered: set<Candidate>, limit: nat, entry: Candidate)
    requires Holds(kept, offered, limit) && |kept| == limit > 0
    requires entry !in offered && DistinctPaths(offered + {entry}) && !BetterThan(entry, kept[0])
    ensures Holds(kept, offered + {entry}, limit)
  {
    hide BetterThan, IsHeap;
    assert kept[0] in offered + {entry};
    BetterOrders(offered + {entry});
    forall d | d in kept ensures BetterThan(d, entry) {
      OthersBeatRoot(kept, offered, d);
      assert BetterThan(kept[0], entry);
      if d != kept[0] { BetterIsTransitive(d, kept[0], entry); }
    }
  }

  /** A slice of fixed capacity, as `make(candidateHeap, 0, limit)` gives. */
  class Selection {
    const values: array<Candidate>
    var size: nat

    ghost predicate Valid()
      reads this
    {
      size <= values.Length
    }

    ghost function Contents(): seq<Candidate>
      reads this, values
      requires Valid()
    {
      values[..size]
    }

    constructor (limit: nat)
      ensures Valid() && Contents() == [] && values.Length == limit && fresh(values)
    {
      values := new Candidate[limit](_ => Candidate(Found([], [], [], false, false), 0, 0));
      size := 0;
    }

    method AddCandidate(entry: Candidate, ghost offered: set<Candidate>)
      requires Valid() && values.Length > 0 && entry !in offered && DistinctPaths(offered + {entry})
      requires Holds(Contents(), offered, values.Length)
      modifies this, values
      ensures Valid() && Holds(Contents(), offered + {entry}, values.Length)
    {
      hide BetterThan, HeapExcept, HoldsBest;
      var limit := values.Length;
      ghost var before := Contents();
      if size < limit {
        values[size] := entry;
        size := size + 1;
        assert Contents() == before + [entry];
        OneMoreKept(before, offered, limit, entry);
        if size == limit {
          ghost var grown := Contents();
          HeapInit(values, size);
          Rearranged(grown, Contents(), offered + {entry}, limit);
        }
      } else if BetterThan(entry, values[0]) {
        Replaced(before, offered, limit, entry);
        ReplacedRoot(before, entry);
        values[0] := entry;
        ghost var replaced := before[0 := entry];
        assert values[..size] == replaced;
        HeapDown(values, size, 0);
        assert IsHeap(Contents());
        Rearranged(replaced, Contents(), offered + {entry}, limit);
      } else {
        NotBetterThanRoot(before, offered, limit, entry);
      }
    }
  }
}
