/** Orders, and what "sort everything and take the first n" means. The two methods at the end stand
    for Go's `sort.Slice` and `container/heap`, which are not part of the repository: only their
    contracts are used. */
module Ordering {
  /** `less` is a strict weak order on `s`. */
  ghost predicate WeakOrder<T(!new)>(less: (T, T) -> bool, s: set<T>) {
    && (forall x, y :: x in s && y in s && less(x, y) ==> !less(y, x))
    && (forall x, y, z :: x in s && y in s && z in s && less(x, z) ==> less(x, y) || less(y, z))
  }

  /** ... that also tells distinct elements apart. */
  ghost predicate TotalOrder<T(!new)>(less: (T, T) -> bool, s: set<T>) {
    && WeakOrder(less, s)
    && (forall x, y :: x in s && y in s && x != y ==> less(x, y) || less(y, x))
  }

  function Elements<T>(s: seq<T>): set<T> {
    set x | x in s
  }

  ghost predicate Distinct<T>(s: seq<T>) {
    forall i, j :: 0 <= i < j < |s| ==> s[i] != s[j]
  }

  ghost predicate Ascending<T>(less: (T, T) -> bool, s: seq<T>) {
    forall i, j :: 0 <= i < j < |s| ==> less(s[i], s[j])
  }

  /** No later element is less than an earlier one: what sorting a list with equal keys gives. */
  ghost predicate NonDescending<T>(less: (T, T) -> bool, s: seq<T>) {
    forall i, j :: 0 <= i < j < |s| ==> !less(s[j], s[i])
  }

  /** `out` is what sorting `all` and taking the first `n` gives. */
  ghost predicate IsFirst<T(!new)>(less: (T, T) -> bool, out: seq<T>, all: set<T>, n: nat) {
    && Ascending(less, out)
    && |out| <= n
    && (forall x :: x in out ==> x in all)
    && (forall x :: x in all && x !in out ==> |out| == n && forall y :: y in out ==> less(y, x))
  }

  lemma {:induction false} DistinctSize<T>(s: seq<T>)
    requires Distinct(s)
    ensures |Elements(s)| == |s|
  {
    if s != [] {
      var n := |s| - 1;
      var rest, last := s[..n], s[n];
      DistinctSize(rest);
      assert last !in Elements(rest);
      assert Elements(s) == Elements(rest) + {last} by {
        assert s == rest + [last];
      }
    }
  }

  lemma AscendingIsDistinct<T(!new)>(less: (T, T) -> bool, s: seq<T>, all: set<T>)
    requires TotalOrder(less, all) && Ascending(less, s) && Elements(s) <= all
    ensures Distinct(s)
  {
    forall i, j | 0 <= i < j < |s| ensures s[i] != s[j] {
      assert less(s[i], s[j]) && s[i] in Elements(s) && s[j] in Elements(s);
    }
  }

  lemma SubsetSize<T>(a: set<T>, b: set<T>)
    requires a <= b
    ensures |a| <= |b| && (|a| == |b| ==> a == b)
  {
    assert b == a + (b - a);
  }

  /** The first n are all of them, or exactly n. */
  lemma FirstSize<T(!new)>(less: (T, T) -> bool, out: seq<T>, all: set<T>, n: nat)
    requires TotalOrder(less, all) && IsFirst(less, out, all, n)
    ensures |out| == if |all| <= n then |all| else n
    ensures |all| <= n ==> Elements(out) == all
  {
    AscendingIsDistinct(less, out, all);
    DistinctSize(out);
    SubsetSize(Elements(out), all);
    if Elements(out) != all {
      var x :| x in all && x !in Elements(out);
      assert x !in out;
    }
  }

  lemma SameLast<T(!new)>(less: (T, T) -> bool, a: seq<T>, b: seq<T>, all: set<T>)
    requires TotalOrder(less, all) && Elements(a) == Elements(b) <= all
    requires Ascending(less, a) && Ascending(less, b) && a != [] && b != []
    ensures a[|a| - 1] == b[|b| - 1]
  {
    var x, y := a[|a| - 1], b[|b| - 1];
    assert x in Elements(b) && y in Elements(a);
    var i :| 0 <= i < |b| && b[i] == x;
    var j :| 0 <= j < |a| && a[j] == y;
    assert x == y || less(x, y);
    assert x == y || less(y, x);
  }

  lemma DropLast<T>(a: seq<T>)
    requires a != [] && Distinct(a)
    ensures Elements(a[..|a| - 1]) == Elements(a) - {a[|a| - 1]}
  {
    assert a == a[..|a| - 1] + [a[|a| - 1]];
  }

  lemma {:induction false} AscendingIsUnique<T(!new)>(less: (T, T) -> bool, a: seq<T>, b: seq<T>, all: set<T>)
    requires TotalOrder(less, all) && Elements(a) == Elements(b) <= all
    requires Ascending(less, a) && Ascending(less, b)
    ensures a == b
    decreases |a|
  {
    hide Elements, TotalOrder;
    SameEmptiness(a, b);
    if a != [] {
      SameLast(less, a, b, all);
      AscendingIsDistinct(less, a, all);
      AscendingIsDistinct(less, b, all);
      DropLast(a);
      DropLast(b);
      AscendingIsUnique(less, a[..|a| - 1], b[..|b| - 1], all);
      assert a == a[..|a| - 1] + [a[|a| - 1]];
    }
  }

  lemma SameEmptiness<T>(a: seq<T>, b: seq<T>)
    requires Elements(a) == Elements(b)
    ensures a == [] <==> b == []
  {
    assert a != [] ==> a[0] in Elements(b);
    assert b != [] ==> b[0] in Elements(a);
  }

  lemma NoOutsider<T(!new)>(less: (T, T) -> bool, a: seq<T>, b: seq<T>, all: set<T>, n: nat, x: T)
    requires TotalOrder(less, all) && IsFirst(less, a, all, n) && IsFirst(less, b, all, n)
    requires |Elements(a)| == |Elements(b)| && x in a
    ensures x in b
  {
    assert x in Elements(a);
    if x !in b {
      // everything in b precedes x, so b lies inside a, and b is as large as a
      forall y | y in b ensures y in a { assert less(y, x); }
      SubsetSize(Elements(b), Elements(a));
      assert false;
    }
  }

  /** Sorting and cutting has one answer. */
  lemma FirstIsUnique<T(!new)>(less: (T, T) -> bool, a: seq<T>, b: seq<T>, all: set<T>, n: nat)
    requires TotalOrder(less, all) && IsFirst(less, a, all, n) && IsFirst(less, b, all, n)
    ensures a == b
  {
    FirstSize(less, a, all, n);
    FirstSize(less, b, all, n);
    AscendingIsDistinct(less, a, all);
    AscendingIsDistinct(less, b, all);
    DistinctSize(a);
    DistinctSize(b);
    forall x | x in a ensures x in b { NoOutsider(less, a, b, all, n, x); }
    forall x | x in b ensures x in a { NoOutsider(less, b, a, all, n, x); }
    AscendingIsUnique(less, a, b, all);
  }

  lemma PrefixIsFirst<T(!new)>(less: (T, T) -> bool, sorted: seq<T>, all: set<T>, n: nat)
    requires Ascending(less, sorted) && forall x :: x in all <==> x in sorted
    ensures IsFirst(less, sorted[..if |sorted| <= n then |sorted| else n], all, n)
  {
    var out := sorted[..if |sorted| <= n then |sorted| else n];
    assert forall k :: 0 <= k < |out| ==> sorted[k] == out[k];
    forall x | x in all && x !in out ensures |out| == n && forall y :: y in out ==> less(y, x) {
      var k :| 0 <= k < |sorted| && sorted[k] == x;
      assert k >= |out|;
    }
  }

  // ------------------------------------------------------ a bounded selection

  /** `kept` holds the `capacity` least of the elements offered so far, a greatest one in front. */
  ghost predicate Keeps<T(!new)>(less: (T, T) -> bool, kept: seq<T>, offered: set<T>, capacity: nat) {
    && Distinct(kept)
    && |kept| <= capacity
    && (forall x :: x in kept ==> x in offered)
    && (forall x :: x in offered && x !in kept ==> |kept| == capacity && forall y :: y in kept ==> less(y, x))
    && (forall x :: x in kept ==> x == kept[0] || less(x, kept[0]))
  }

  /** The contract of heap.Push and heap.Fix on a heap whose order puts the greatest first. */
  method GreatestFirst<T(==, !new)>(items: seq<T>, less: (T, T) -> bool) returns (heap: seq<T>)
    requires Distinct(items) && TotalOrder(less, Elements(items))
    ensures multiset(heap) == multiset(items) && |heap| == |items| && Distinct(heap)
    ensures forall x :: x in heap ==> x == heap[0] || less(x, heap[0])
    ensures forall x :: x in heap <==> x in items
  {
    if items == [] { return items; }
    var greatest := 0;
    for i := 1 to |items|
      invariant 0 <= greatest < i
      invariant forall k :: 0 <= k < i ==> items[k] == items[greatest] || less(items[k], items[greatest])
    {
      assert items[i] in Elements(items) && items[greatest] in Elements(items);
      if less(items[greatest], items[i]) {
        forall k | 0 <= k < i ensures less(items[k], items[i]) {
          assert items[k] in Elements(items);
          assert items[k] == items[greatest] || less(items[k], items[greatest]);
          assert items[k] != items[i];
        }
        greatest := i;
      }
    }
    heap := items[0 := items[greatest]][greatest := items[0]];
    SameElements(heap, items);
    DistinctByMultiset(items, heap);
  }

  lemma SameElements<T>(a: seq<T>, b: seq<T>)
    requires multiset(a) == multiset(b)
    ensures |a| == |b| && forall x :: x in a <==> x in b
  {
    assert |multiset(a)| == |multiset(b)|;
    assert forall x :: x in a <==> x in multiset(a);
    assert forall x :: x in b <==> x in multiset(b);
  }

  /** Offering one more element to a bounded selection, as the heap-backed loops of the source do. */
  method Offer<T(==, !new)>(kept: seq<T>, x: T, capacity: nat, less: (T, T) -> bool, ghost offered: set<T>)
    returns (kept': seq<T>)
    requires capacity > 0 && x !in offered && TotalOrder(less, offered + {x})
    requires Keeps(less, kept, offered, capacity)
    ensures Keeps(less, kept', offered + {x}, capacity)
  {
    if |kept| < capacity {
      assert TotalOrder(less, Elements(kept + [x]));
      kept' := GreatestFirst(kept + [x], less);
      assert forall y :: y in kept' <==> y in kept || y == x;
    } else if less(x, kept[0]) {
      var replaced := kept[0 := x];
      forall y ensures y in replaced <==> y == x || (y in kept && y != kept[0]) {
        assert forall k :: 0 < k < |kept| ==> replaced[k] == kept[k];
        if y in kept && y != kept[0] {
          var k :| 0 <= k < |kept| && kept[k] == y;
          assert replaced[k] == y;
        }
        if y == x { assert replaced[0] == x; }
      }
      assert TotalOrder(less, Elements(replaced));
      kept' := GreatestFirst(replaced, less);
      forall z | z in offered + {x} && z !in kept'
        ensures |kept'| == capacity && forall y :: y in kept' ==> less(y, z)
      {
        assert z == kept[0] || z !in kept;
        forall y | y in kept' ensures less(y, z) {
          assert y in offered + {x} && kept[0] in offered;
        }
      }
    } else {
      kept' := kept;
      forall y | y in kept ensures less(y, x) {
        assert y in offered && kept[0] in offered && kept[0] != x;
        assert less(kept[0], x);
      }
    }
  }

  /** The contract of sort.Slice. */
  method Sort<T(!new)>(items: seq<T>, less: (T, T) -> bool) returns (sorted: seq<T>)
    requires WeakOrder(less, Elements(items))
    ensures multiset(sorted) == multiset(items) && NonDescending(less, sorted)
  {
    sorted := [];
    for n := 0 to |items|
      invariant multiset(sorted) == multiset(items[..n])
      invariant NonDescending(less, sorted)
    {
      assert items[..n + 1] == items[..n] + [items[n]];
      var x := items[n];
      var at := 0;
      while at < |sorted| && !less(x, sorted[at])
        invariant 0 <= at <= |sorted|
        invariant forall k :: 0 <= k < at ==> !less(x, sorted[k])
      {
        at := at + 1;
      }
      SortedInsert(sorted, x, at, less, Elements(items), items[..n]);
      assert sorted == sorted[..at] + sorted[at..];
      sorted := sorted[..at] + [x] + sorted[at..];
    }
    assert items[..|items|] == items;
  }

  lemma SortedInsert<T(!new)>(sorted: seq<T>, x: T, at: nat, less: (T, T) -> bool, all: set<T>, items: seq<T>)
    requires at <= |sorted| && WeakOrder(less, all) && x in all
    requires multiset(sorted) == multiset(items) && forall y :: y in items ==> y in all
    requires NonDescending(less, sorted)
    requires forall k :: 0 <= k < at ==> !less(x, sorted[k])
    requires at < |sorted| ==> less(x, sorted[at])
    ensures NonDescending(less, sorted[..at] + [x] + sorted[at..])
  {
    var result := sorted[..at] + [x] + sorted[at..];
    forall k | 0 <= k < |sorted| ensures sorted[k] in all {
      assert sorted[k] in multiset(sorted);
      assert sorted[k] in items;
    }
    forall i, j | 0 <= i < j < |result| ensures !less(result[j], result[i]) {
      if i == at {
        assert result[j] == sorted[j - 1] && (j - 1 > at ==> !less(sorted[j - 1], sorted[at]));
      } else if j == at {
        assert result[i] == sorted[i];
      }
    }
  }

  /** Sorting what a bounded selection kept gives the first of everything offered. */
  lemma SortedKeptIsFirst<T(!new)>(less: (T, T) -> bool, kept: seq<T>, sorted: seq<T>, offered: set<T>, capacity: nat)
    requires TotalOrder(less, offered) && Keeps(less, kept, offered, capacity)
    requires multiset(sorted) == multiset(kept) && NonDescending(less, sorted)
    ensures IsFirst(less, sorted, offered, capacity)
  {
    forall x ensures x in sorted <==> x in kept {
      assert x in multiset(sorted) <==> x in multiset(kept);
    }
    assert |multiset(sorted)| == |multiset(kept)|;
    DistinctByMultiset(kept, sorted);
    forall i, j | 0 <= i < j < |sorted| ensures less(sorted[i], sorted[j]) {
      assert sorted[i] in kept && sorted[j] in kept && sorted[i] != sorted[j];
    }
  }

  lemma DistinctByMultiset<T>(a: seq<T>, b: seq<T>)
    requires Distinct(a) && multiset(a) == multiset(b)
    ensures Distinct(b)
  {
    DistinctCounts(a);
    forall i, j | 0 <= i < j < |b| ensures b[i] != b[j] {
      assert b[i] in multiset(b);
      assert b[i] in multiset(a);
      if b[i] == b[j] {
        CountedTwice(b, i, j);
        assert false;
      }
    }
  }

  lemma CountedTwice<T>(s: seq<T>, i: nat, j: nat)
    requires i < j < |s| && s[i] == s[j]
    ensures multiset(s)[s[i]] >= 2
  {
    assert s == s[..i] + [s[i]] + s[i + 1..j] + [s[j]] + s[j + 1..];
  }

  lemma {:induction false} DistinctCounts<T>(a: seq<T>)
    requires Distinct(a)
    ensures forall x :: x in a ==> multiset(a)[x] == 1
  {
    if a != [] {
      var rest := a[..|a| - 1];
      DistinctCounts(rest);
      assert a == rest + [a[|a| - 1]];
      assert a[|a| - 1] !in rest;
    }
  }
}
