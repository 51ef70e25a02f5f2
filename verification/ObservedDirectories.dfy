/** The directories a session observes, least recently used first: `internal/app/folder_session.go`. */
module ObservedDirectories {
  import opened Ordering

  const MAX_OBSERVED := 2048

  // ------------------------------------------------------ lists by last use

  /** The last n elements, or all. */
  function Newest<T>(s: seq<T>, n: nat): seq<T> {
    if |s| <= n then s else s[|s| - n..]
  }

  function Without<T(==)>(s: seq<T>, x: T): seq<T> {
    if s == [] then []
    else Without(s[..|s| - 1], x) + (if s[|s| - 1] == x then [] else [s[|s| - 1]])
  }

  /** Every directory but the root that was ever observed, in the order of its last observation. */
  function ByLastUse<T(==)>(history: seq<T>, root: T): seq<T> {
    if history == [] then []
    else
      var (before, d) := (ByLastUse(history[..|history| - 1], root), history[|history| - 1]);
      if d == root then before else Without(before, d) + [d]
  }

  lemma {:induction false} WithoutMembers<T>(s: seq<T>, x: T)
    ensures forall y :: y in Without(s, x) <==> y in s && y != x
  {
    if s != [] {
      WithoutMembers(s[..|s| - 1], x);
      assert s == s[..|s| - 1] + [s[|s| - 1]];
    }
  }

  lemma {:induction false} WithoutAbsent<T>(s: seq<T>, x: T)
    requires x !in s
    ensures Without(s, x) == s
  {
    if s != [] {
      WithoutAbsent(s[..|s| - 1], x);
      assert s == s[..|s| - 1] + [s[|s| - 1]];
    }
  }

  lemma {:induction false} WithoutConcat<T>(a: seq<T>, b: seq<T>, x: T)
    ensures Without(a + b, x) == Without(a, x) + Without(b, x)
  {
    if b == [] {
      assert a + b == a;
    } else {
      assert (a + b)[..|a + b| - 1] == a + b[..|b| - 1];
      WithoutConcat(a, b[..|b| - 1], x);
    }
  }

  lemma OnceAround<T>(s: seq<T>, at: nat)
    requires at < |s| && Distinct(s)
    ensures s[at] !in s[..at] && s[at] !in s[at + 1..] && s == s[..at] + [s[at]] + s[at + 1..]
  {
  }

  lemma WithoutOne<T>(x: T)
    ensures Without([x], x) == []
  {
  }

  lemma WithoutAt<T>(s: seq<T>, x: T, at: nat)
    requires at < |s| && s[at] == x && Distinct(s)
    ensures Without(s, x) == s[..at] + s[at + 1..]
  {
    hide Without;
    OnceAround(s, at);
    hide Distinct;
    WithoutConcat(s[..at] + [x], s[at + 1..], x);
    WithoutConcat(s[..at], [x], x);
    WithoutAbsent(s[..at], x);
    WithoutAbsent(s[at + 1..], x);
    WithoutOne(x);
    assert s[..at] + [] == s[..at];
  }

  lemma OneMoreIsDistinct<T>(s: seq<T>, x: T)
    requires Distinct(s) && x !in s
    ensures Distinct(s + [x])
  {
  }

  lemma {:induction false} WithoutIsDistinct<T>(s: seq<T>, x: T)
    requires Distinct(s)
    ensures Distinct(Without(s, x))
  {
    if s != [] {
      var n := |s| - 1;
      WithoutIsDistinct(s[..n], x);
      WithoutMembers(s[..n], x);
      assert s[n] !in s[..n];
      if s[n] != x { OneMoreIsDistinct(Without(s[..n], x), s[n]); }
    }
  }

  lemma {:induction false} ByLastUseIsDistinct<T>(history: seq<T>, root: T)
    ensures Distinct(ByLastUse(history, root)) && root !in ByLastUse(history, root)
  {
    if history != [] {
      var before, d := ByLastUse(history[..|history| - 1], root), history[|history| - 1];
      ByLastUseIsDistinct(history[..|history| - 1], root);
      WithoutMembers(before, d);
      WithoutIsDistinct(before, d);
      OneMoreIsDistinct(Without(before, d), d);
    }
  }

  /** What the list becomes: the directory moves, or comes, to its end; the oldest goes when it is full. */
  function Remembered<T(==)>(recent: seq<T>, d: T, n: nat): seq<T>
    requires n > 0
  {
    if d in recent then Without(recent, d) + [d]
    else if |recent| >= n then recent[1..] + [d]
    else recent + [d]
  }

  lemma NewestOf<T>(older: seq<T>, s: seq<T>, n: nat)
    requires |s| <= n && (older == [] || |s| == n)
    ensures Newest(older + s, n) == s
  {
  }

  /** The bounded list stays the newest part of all directories by last use. */
  lemma RememberedIsNewest<T>(all: seq<T>, d: T, n: nat)
    requires Distinct(all) && n > 0
    ensures Remembered(Newest(all, n), d, n) == Newest(Without(all, d) + [d], n)
  {
    var q := Newest(all, n);
    var p := all[..|all| - |q|];
    assert all == p + q;
    assert |q| <= n && (p == [] || |q| == n);
    hide Newest, Without, Distinct;
    WithoutConcat(p, q, d);
    if d in q { MovedToEnd(p, q, d, n); } else { AddedAtEnd(p, q, d, n); }
  }

  lemma AddedAtEnd<T>(p: seq<T>, q: seq<T>, d: T, n: nat)
    requires d !in q && 0 < n && |q| <= n && (p == [] || |q| == n)
    ensures Newest(Without(p, d) + Without(q, d) + [d], n) == Remembered(q, d, n)
  {
    WithoutAbsent(q, d);
    if p == [] { WithoutAbsent(p, d); }
    var older := Without(p, d);
    hide Without, Newest;
    if |q| == n {
      assert older + q + [d] == older + [q[0]] + (q[1..] + [d]);
      NewestOf(older + [q[0]], q[1..] + [d], n);
    } else {
      assert older + q + [d] == [] + (q + [d]);
      NewestOf([], q + [d], n);
    }
  }

  lemma MovedToEnd<T>(p: seq<T>, q: seq<T>, d: T, n: nat)
    requires Distinct(p + q) && d in q && |q| <= n && (p == [] || |q| == n)
    ensures Newest(Without(p, d) + Without(q, d) + [d], n) == Without(q, d) + [d]
  {
    hide Without, Newest;
    Apart(p, q);
    var at :| 0 <= at < |q| && q[at] == d;
    WithoutAt(q, d, at);
    WithoutAbsent(p, d);
    NewestOf(p, Without(q, d) + [d], n);
    assert p + Without(q, d) + [d] == p + (Without(q, d) + [d]);
  }

  lemma Apart<T>(p: seq<T>, q: seq<T>)
    requires Distinct(p + q)
    ensures Distinct(q) && forall d :: d in q ==> d !in p
  {
    assert forall i :: 0 <= i < |q| ==> q[i] == (p + q)[|p| + i];
    assert forall i :: 0 <= i < |p| ==> p[i] == (p + q)[i];
  }

  lemma NewestIsDistinct<T>(all: seq<T>, n: nat)
    requires Distinct(all)
    ensures Distinct(Newest(all, n)) && |Newest(all, n)| <= n && forall d :: d in Newest(all, n) ==> d in all
  {
  }

  // ------------------------------------------------------ the session's list

  type Directory = string

  const ROOT: Directory := ""

  class Observed {
    var directories: set<Directory>
    var recent: seq<Directory>
    ghost var history: seq<Directory>

    /** The root stays in front; behind it come the directories observed last. */
    ghost predicate Valid()
      reads this
    {
      && recent == [ROOT] + Newest(ByLastUse(history, ROOT), MAX_OBSERVED - 1)
      && forall d :: d in directories <==> d in recent
    }

    constructor ()
      ensures Valid() && history == []
    {
      directories, recent, history := {ROOT}, [ROOT], [];
    }

    method Remember(directory: Directory)
      requires Valid()
      modifies this
      ensures Valid() && history == old(history) + [directory] && |recent| <= MAX_OBSERVED
    {
      hide Newest, ByLastUse, Without, Remembered, Distinct;
      ghost var q := Newest(ByLastUse(history, ROOT), MAX_OBSERVED - 1);
      RootIsApart(history);
      NextUse(history, directory);
      history := history + [directory];
      if directory in directories {
        if directory == ROOT { return; }
        var index := IndexOf(recent, directory);
        Moved(q, directory, index);
        recent := recent[..index] + recent[index + 1..] + [directory];
        return;
      }
      Appended(q, directory);
      // the source evicts in a loop; the list is never longer than the limit, so one round is enough
      if |recent| >= MAX_OBSERVED {
        directories := directories - {recent[1]};
        recent := recent[..1] + recent[2..];
      }
      directories := directories + {directory};
      recent := recent + [directory];
    }

    method IndexOf(recent: seq<Directory>, directory: Directory) returns (index: nat)
      requires recent != [] && recent[0] != directory && directory in recent
      ensures 1 <= index < |recent| && recent[index] == directory
    {
      ghost var at :| 0 <= at < |recent| && recent[at] == directory;
      index := 1;
      while recent[index] != directory
        invariant 1 <= index <= at
        decreases at - index
      {
        index := index + 1;
      }
    }
  }

  lemma RootIsApart(history: seq<Directory>)
    ensures var q := Newest(ByLastUse(history, ROOT), MAX_OBSERVED - 1);
      Distinct(q) && ROOT !in q && |q| <= MAX_OBSERVED - 1
  {
    ByLastUseIsDistinct(history, ROOT);
    NewestIsDistinct(ByLastUse(history, ROOT), MAX_OBSERVED - 1);
  }

  lemma NextUse(history: seq<Directory>, d: Directory)
    ensures var q := Newest(ByLastUse(history, ROOT), MAX_OBSERVED - 1);
      Newest(ByLastUse(history + [d], ROOT), MAX_OBSERVED - 1) == if d == ROOT then q else Remembered(q, d, MAX_OBSERVED - 1)
  {
    assert (history + [d])[..|history|] == history;
    ByLastUseIsDistinct(history, ROOT);
    if d != ROOT { RememberedIsNewest(ByLastUse(history, ROOT), d, MAX_OBSERVED - 1); }
  }

  lemma Moved(q: seq<Directory>, d: Directory, index: nat)
    requires Distinct(q) && 1 <= index <= |q| && ([ROOT] + q)[index] == d
    ensures var recent := [ROOT] + q;
      recent[..index] + recent[index + 1..] + [d] == [ROOT] + Remembered(q, d, MAX_OBSERVED - 1)
      && forall x :: x in recent <==> x in recent[..index] + recent[index + 1..] + [d]
  {
    var recent := [ROOT] + q;
    assert q[index - 1] == d;
    WithoutAt(q, d, index - 1);
    assert recent == recent[..index] + [d] + recent[index + 1..];
    assert recent[..index] == [ROOT] + q[..index - 1] && recent[index + 1..] == q[index..];
  }

  lemma Appended(q: seq<Directory>, d: Directory)
    requires d !in q && Distinct(q) && ROOT !in q && |q| <= MAX_OBSERVED - 1
    ensures var recent := [ROOT] + q;
      var kept := if |recent| >= MAX_OBSERVED then recent[..1] + recent[2..] else recent;
      && kept + [d] == [ROOT] + Remembered(q, d, MAX_OBSERVED - 1) && |kept| < MAX_OBSERVED
      && forall x :: x in kept <==> x in recent && (|recent| >= MAX_OBSERVED ==> x != recent[1])
  {
    var recent := [ROOT] + q;
    if |recent| >= MAX_OBSERVED {
      assert recent == [ROOT] + [q[0]] + q[1..];
      assert recent[..1] + recent[2..] == [ROOT] + q[1..];
      assert q[0] !in q[1..];
    }
  }
}
