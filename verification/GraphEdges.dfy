/** What the drawn lanes mean: between two rows there is one lane for every edge from a drawn commit
    to an undrawn parent, and each row hands its parents to the next one in the columns it names. */
module GraphEdges {
  import opened Wrappers
  import opened GraphLanes

  lemma {:induction false} ClaimedColumns(lanes: Lanes, parents: seq<Oid>)
    ensures var (after, columns) := ClaimAll(lanes, parents);
      && |columns| == |parents|
      && (forall i, j :: 0 <= i < j < |columns| ==> columns[i] != columns[j])
      && (forall k :: 0 <= k < |columns| ==> At(lanes, columns[k]).None? && At(after, columns[k]) == Some(parents[k]))
      && (forall c: nat :: c !in columns ==> At(after, c) == At(lanes, c))
  {
    hide LowestFree;
    if parents != [] {
      var earlier := parents[..|parents| - 1];
      ClaimedColumns(lanes, earlier);
      var (before, columns) := ClaimAll(lanes, earlier);
      var column := LowestFree(before);
      assert column !in columns;
    }
  }

  lemma SettledAt(lanes: Lanes, commit: Commit, c: nat)
    ensures var node := NodeColumn(lanes, commit.oid);
      At(Settled(lanes, commit), c) ==
        if c == node then (if FirstIsDrawn(commit) then Some(commit.parents[0]) else None)
        else if At(lanes, c) == Some(commit.oid) then None
        else At(lanes, c)
  {
    hide LowestFree, Waiting, NodeColumn;
  }

  lemma NodeIsFreeOrWaiting(lanes: Lanes, oid: Oid)
    ensures At(lanes, NodeColumn(lanes, oid)) in {None, Some(oid)}
  {
  }

  /** The parents with a lane of their own, paired with the row's outgoing columns. */
  ghost predicate Leaves(row: Row, lane: Lane) {
    exists k :: 0 <= k < |row.outgoing| && k < |Drawn(row.commit)|
             && row.outgoing[k] == lane.column && Drawn(row.commit)[k] == lane.next
  }

  lemma OutgoingPairs(row: Row, columns: seq<nat>, lane: Lane)
    requires row.outgoing == (if FirstIsDrawn(row.commit) then [row.column] else []) + columns
    requires |columns| == |Rest(row.commit)|
    ensures |row.outgoing| == |Drawn(row.commit)|
    ensures Leaves(row, lane) <==>
      || (FirstIsDrawn(row.commit) && lane == Lane(row.column, row.commit.parents[0]))
      || exists k :: 0 <= k < |columns| && columns[k] == lane.column && Rest(row.commit)[k] == lane.next
  {
    var rest := Rest(row.commit);
    if FirstIsDrawn(row.commit) {
      assert Drawn(row.commit) == [row.commit.parents[0]] + rest;
      Prepended(row.column, columns, row.commit.parents[0], rest, lane);
    } else {
      assert Drawn(row.commit) == rest && row.outgoing == columns;
    }
  }

  lemma Prepended(column: nat, columns: seq<nat>, oid: Oid, rest: seq<Oid>, lane: Lane)
    requires |columns| == |rest|
    ensures (exists k :: 0 <= k <= |rest| && ([column] + columns)[k] == lane.column && ([oid] + rest)[k] == lane.next)
       <==> lane == Lane(column, oid) || exists k :: 0 <= k < |rest| && columns[k] == lane.column && rest[k] == lane.next
  {
    var all, oids := [column] + columns, [oid] + rest;
    if lane == Lane(column, oid) { assert all[0] == lane.column && oids[0] == lane.next; }
    if k :| 0 <= k < |rest| && columns[k] == lane.column && rest[k] == lane.next {
      assert all[k + 1] == lane.column && oids[k + 1] == lane.next;
    }
    if k :| 0 <= k <= |rest| && all[k] == lane.column && oids[k] == lane.next {
      if k > 0 { assert columns[k - 1] == lane.column && rest[k - 1] == lane.next; }
    }
  }

  /** A row's outgoing columns are pairwise distinct, one for each parent that gets a lane, and the
      next row is entered by exactly those lanes and the ones that were not waiting for this commit,
      each still in its column. */
  lemma RowHandsOver(lanes: Lanes, commit: Commit)
    ensures var row, next := RowOf(lanes, commit), After(lanes, commit);
      && |row.outgoing| == |Drawn(commit)|
      && (forall i, j :: 0 <= i < j < |row.outgoing| ==> row.outgoing[i] != row.outgoing[j])
      && (forall lane :: lane in Incoming(next) <==> (lane in row.lanes && lane.next != commit.oid) || Leaves(row, lane))
  {
    hide LowestFree, Waiting, NodeColumn, ClaimAll, Trim, Settled, Leaves, Incoming;
    var row, next := RowOf(lanes, commit), After(lanes, commit);
    var settled := Settled(lanes, commit);
    var (claimed, columns) := ClaimAll(settled, Rest(commit));
    ClaimedColumns(settled, Rest(commit));
    OutgoingPairs(row, columns, Lane(0, ""));
    SettledAt(lanes, commit, row.column);
    forall lane: Lane
      ensures lane in Incoming(next) <==> (lane in row.lanes && lane.next != commit.oid) || Leaves(row, lane)
    {
      EntersNext(lanes, commit, lane);
    }
  }

  lemma EntersNext(lanes: Lanes, commit: Commit, lane: Lane)
    ensures var row := RowOf(lanes, commit);
      lane in Incoming(After(lanes, commit)) <==> (lane in row.lanes && lane.next != commit.oid) || Leaves(row, lane)
  {
    hide LowestFree, Waiting, NodeColumn, ClaimAll, Trim, Settled, Leaves, Drawn;
    var row, c := RowOf(lanes, commit), lane.column;
    var settled := Settled(lanes, commit);
    var (claimed, columns) := ClaimAll(settled, Rest(commit));
    ClaimedColumns(settled, Rest(commit));
    NodeIsFreeOrWaiting(lanes, commit.oid);
    OutgoingPairs(row, columns, lane);
    SettledAt(lanes, commit, c);
    assert At(After(lanes, commit), c) == At(claimed, c) by { assert Same(claimed, Trim(claimed)); }
    assert lane in Incoming(After(lanes, commit)) <==> At(claimed, c) == Some(lane.next);
    assert lane in row.lanes <==> At(lanes, c) == Some(lane.next);
    if c in columns {
      var k :| 0 <= k < |columns| && columns[k] == c;
      assert At(settled, c).None? && At(claimed, c) == Some(Rest(commit)[k]);
    }
  }

  /** Some lane enters the row in this column and does not end at its node. */
  ghost predicate Passes(row: Row, column: nat) {
    exists lane :: lane in row.lanes && lane.column == column && lane.next != row.commit.oid
  }

  /** The first parent continues the commit's column, and every other gets the lowest column that no passing lane
      and no parent before it has. */
  ghost predicate ParentsRight(row: Row) {
    && |row.outgoing| == |Drawn(row.commit)|
    && (FirstIsDrawn(row.commit) ==> row.outgoing[0] == row.column)
    && forall k :: (if FirstIsDrawn(row.commit) then 1 else 0) <= k < |row.outgoing| ==>
         && !Passes(row, row.outgoing[k])
         && forall c: nat :: c < row.outgoing[k] ==> Passes(row, c) || c in row.outgoing[..k]
  }

  lemma NodeSitsRight(lanes: Lanes, commit: Commit)
    ensures var row := RowOf(lanes, commit); Sits(row.lanes, row.commit.oid, row.column)
  {
    hide NodeColumn, Sits, After, ClaimAll, Settled;
    NodeSits(lanes, commit.oid);
  }

  /** Claimed columns are the lowest free ones, one after another. */
  lemma {:induction false} ClaimedAreLowest(lanes: Lanes, parents: seq<Oid>)
    ensures var columns := ClaimAll(lanes, parents).1;
      |columns| == |parents| && forall k :: 0 <= k < |columns| ==>
        At(lanes, columns[k]).None? && forall c: nat :: c < columns[k] ==> At(lanes, c).Some? || c in columns[..k]
  {
    if parents != [] {
      var earlier, n := parents[..|parents| - 1], |parents| - 1;
      ClaimedAreLowest(lanes, earlier);
      ClaimedColumns(lanes, earlier);
      var (before, first) := ClaimAll(lanes, earlier);
      var columns := ClaimAll(lanes, parents).1;
      assert columns == first + [LowestFree(before)];
      forall k | 0 <= k < |columns|
        ensures At(lanes, columns[k]).None? && forall c: nat :: c < columns[k] ==> At(lanes, c).Some? || c in columns[..k]
      {
        assert columns[..k] == first[..k];
        if k == n { assert first[..n] == first; }
      }
    }
  }

  /** Before the other parents claim theirs, the taken columns are those of passing lanes and the first parent's. */
  lemma SettledIsTaken(lanes: Lanes, commit: Commit, c: nat)
    ensures At(Settled(lanes, commit), c).Some? <==>
      Passes(RowOf(lanes, commit), c) || (FirstIsDrawn(commit) && c == NodeColumn(lanes, commit.oid))
  {
    hide LowestFree, Waiting, NodeColumn, ClaimAll, After, Settled;
    var row := RowOf(lanes, commit);
    SettledAt(lanes, commit, c);
    NodeIsFreeOrWaiting(lanes, commit.oid);
    if At(lanes, c).Some? { assert Lane(c, At(lanes, c).value) in row.lanes; }
    assert forall lane :: lane in row.lanes && lane.column == c ==> At(lanes, c) == Some(lane.next);
  }

  lemma ParentsGoRight(lanes: Lanes, commit: Commit)
    ensures ParentsRight(RowOf(lanes, commit))
  {
    hide LowestFree, Waiting, NodeColumn, ClaimAll, Settled, Passes, After;
    var row, settled := RowOf(lanes, commit), Settled(lanes, commit);
    var columns := ClaimAll(settled, Rest(commit)).1;
    ClaimedAreLowest(settled, Rest(commit));
    forall c: nat ensures At(settled, c).Some? <==> Passes(row, c) || (FirstIsDrawn(commit) && c == row.column) {
      SettledIsTaken(lanes, commit, c);
    }
    LowestAfterFirst(row, settled, columns);
  }

  lemma LowestAfterFirst(row: Row, settled: Lanes, columns: seq<nat>)
    requires row.outgoing == (if FirstIsDrawn(row.commit) then [row.column] else []) + columns
    requires |columns| == |Rest(row.commit)|
    requires forall c: nat :: At(settled, c).Some? <==> Passes(row, c) || (FirstIsDrawn(row.commit) && c == row.column)
    requires forall k :: 0 <= k < |columns| ==>
      At(settled, columns[k]).None? && forall c: nat :: c < columns[k] ==> At(settled, c).Some? || c in columns[..k]
    ensures ParentsRight(row)
  {
    hide Passes, At;
    var first := if FirstIsDrawn(row.commit) then 1 else 0;
    forall k | first <= k < |row.outgoing|
      ensures !Passes(row, row.outgoing[k]) && forall c: nat :: c < row.outgoing[k] ==> Passes(row, c) || c in row.outgoing[..k]
    {
      assert row.outgoing[k] == columns[k - first];
      assert row.outgoing[..k] == row.outgoing[..first] + columns[..k - first];
      forall c: nat | c < row.outgoing[k] ensures Passes(row, c) || c in row.outgoing[..k] {
        assert At(settled, c).Some? || c in columns[..k - first];
        if FirstIsDrawn(row.commit) && c == row.column { assert row.outgoing[..k][0] == c; }
      }
    }
  }

  /** In every row of a graph nodes and parents get the columns they should. */
  lemma EveryRowIsRight(commits: seq<Commit>, i: nat)
    requires i < |commits|
    ensures var row := Rows(commits, [])[i];
      row.commit == commits[i] && Sits(row.lanes, row.commit.oid, row.column) && ParentsRight(row)
  {
    hide RowOf, Sits, ParentsRight, LanesAfter;
    RowAt(commits, [], i);
    NodeSitsRight(LanesAfter(commits[..i], []), commits[i]);
    ParentsGoRight(LanesAfter(commits[..i], []), commits[i]);
    RowsKeepCommits(LanesAfter(commits[..i], []), commits[i]);
  }

  lemma RowsKeepCommits(lanes: Lanes, commit: Commit)
    ensures RowOf(lanes, commit).commit == commit
  {
  }

  /** A commit followed by its first parent: the parent does not move right, and stays in the column unless a lane
      further left waits for it too. */
  lemma {:induction false} FirstParentGoesOn(commits: seq<Commit>, i: nat)
    requires i + 1 < |commits| && FirstIsDrawn(commits[i]) && commits[i + 1].oid == commits[i].parents[0]
    ensures GoesOn(Rows(commits, [])[i], Rows(commits, [])[i + 1])
  {
    hide RowOf, After, GoesOn;
    var lanes := LanesAfter(commits[..i], []);
    RowAt(commits, [], i);
    RowAt(commits, [], i + 1);
    assert commits[..i + 1][..i] == commits[..i];
    ParentGoesOn(lanes, commits[i], commits[i + 1]);
  }

  ghost predicate GoesOn(row: Row, next: Row) {
    && next.column <= row.column
    && (next.column < row.column ==> Lane(next.column, next.commit.oid) in row.lanes || next.column in row.outgoing)
  }

  lemma ParentGoesOn(lanes: Lanes, commit: Commit, parent: Commit)
    requires FirstIsDrawn(commit) && parent.oid == commit.parents[0]
    ensures GoesOn(RowOf(lanes, commit), RowOf(After(lanes, commit), parent))
  {
    ParentsGoRight(lanes, commit);
    NodeSitsRight(After(lanes, commit), parent);
    RowHandsOver(lanes, commit);
    NextLanes(lanes, commit, parent);
    var row, next := RowOf(lanes, commit), RowOf(After(lanes, commit), parent);
    hide RowOf, After, Incoming, NodeColumn;
    var on := Lane(row.column, parent.oid);
    assert row.outgoing[0] == on.column && Drawn(row.commit)[0] == on.next;
    assert on in next.lanes;
    assert Lane(next.column, parent.oid) in next.lanes;
  }

  lemma NextLanes(lanes: Lanes, commit: Commit, next: Commit)
    ensures RowOf(After(lanes, commit), next).lanes == Incoming(After(lanes, commit))
    ensures RowOf(lanes, commit).commit == commit && RowOf(After(lanes, commit), next).commit == next
  {
  }

  /** The columns a row names: those of its node, its lanes and its parents. */
  ghost predicate Named(row: Row, column: nat) {
    column == row.column || Taken(row.lanes, column) || column in row.outgoing
  }

  /** A row is exactly as wide as the columns it names. */
  lemma RowIsWideEnough(lanes: Lanes, commit: Commit)
    ensures var row := RowOf(lanes, commit);
      row.totalColumns > 0 && Named(row, row.totalColumns - 1) && forall c: nat :: Named(row, c) ==> c < row.totalColumns
  {
    hide RowOf, After, Incoming, MaxColumn;
    var row, next := RowOf(lanes, commit), After(lanes, commit);
    RowAndNext(lanes, commit);
    NextIsNamed(lanes, commit);
    if MaxColumn(row.lanes) >= 0 { assert Taken(row.lanes, MaxColumn(row.lanes)); }
  }

  lemma RowAndNext(lanes: Lanes, commit: Commit)
    ensures var (row, next) := (RowOf(lanes, commit), After(lanes, commit));
      && row.commit == commit && row.totalColumns == Max(Max(row.column + 1, MaxColumn(row.lanes) + 1), |next|)
      && (next != [] ==> next[|next| - 1].Some?)
  {
    hide NodeColumn, ClaimAll, Settled, Incoming, MaxColumn;
  }

  /** The lanes that leave the row end in a column it names, and hold every parent. */
  lemma NextIsNamed(lanes: Lanes, commit: Commit)
    ensures var (row, next) := (RowOf(lanes, commit), After(lanes, commit));
      && (next != [] ==> Named(row, |next| - 1))
      && (forall c: nat :: c in row.outgoing ==> c < |next|)
  {
    hide RowOf, After, MaxColumn, Max;
    RowHandsOver(lanes, commit);
    RowAndNext(lanes, commit);
    var row, next := RowOf(lanes, commit), After(lanes, commit);
    assert forall lane: Lane :: lane in Incoming(next) ==> lane.column < |next|;
    hide Drawn;
    forall c: nat | c in row.outgoing ensures c < |next| {
      var k :| 0 <= k < |row.outgoing| && row.outgoing[k] == c;
      assert Leaves(row, Lane(c, Drawn(commit)[k]));
    }
    if next != [] {
      var last := Lane(|next| - 1, next[|next| - 1].value);
      assert last in Incoming(next);
      hide Incoming;
      if Leaves(row, last) { assert last.column in row.outgoing; } else { assert Taken(row.lanes, last.column); }
    }
  }

  // ------------------------------------------------------ the edges still to be drawn

  function Waits(lanes: Lanes, oid: Oid): nat {
    multiset(lanes)[Some(oid)]
  }

  lemma {:induction false} MergeWaits(lanes: Lanes, oid: Oid, keep: nat, x: Oid)
    ensures Waits(Merge(lanes, oid, keep), x) ==
      if x != oid then Waits(lanes, x) else if At(lanes, keep) == Some(oid) then 1 else 0
  {
    if lanes != [] {
      var n := |lanes| - 1;
      MergeWaits(lanes[..n], oid, keep, x);
      assert lanes == lanes[..n] + [lanes[n]];
      assert Merge(lanes, oid, keep) == Merge(lanes[..n], oid, keep) + [Merge(lanes, oid, keep)[n]];
    }
  }

  lemma {:induction false} ClaimAllWaits(lanes: Lanes, parents: seq<Oid>, x: Oid)
    ensures Waits(ClaimAll(lanes, parents).0, x) == Waits(lanes, x) + multiset(parents)[x]
  {
    hide LowestFree;
    if parents != [] {
      var n := |parents| - 1;
      ClaimAllWaits(lanes, parents[..n], x);
      var before := ClaimAll(lanes, parents[..n]).0;
      PlaceWaits(before, LowestFree(before), Some(parents[n]), x);
      assert parents == parents[..n] + [parents[n]];
    }
  }

  lemma PlaceWaits(lanes: Lanes, column: nat, value: Option<Oid>, x: Oid)
    requires column <= |lanes|
    ensures Waits(Place(lanes, column, value), x) + (if At(lanes, column) == Some(x) then 1 else 0)
         == Waits(lanes, x) + (if value == Some(x) then 1 else 0)
  {
  }

  lemma {:induction false} TrimWaits(lanes: Lanes, x: Oid)
    ensures Waits(Trim(lanes), x) == Waits(lanes, x)
  {
    if lanes != [] && lanes[|lanes| - 1].None? {
      TrimWaits(lanes[..|lanes| - 1], x);
      assert lanes == lanes[..|lanes| - 1] + [None];
    }
  }

  lemma AfterWaits(lanes: Lanes, commit: Commit, x: Oid)
    ensures Waits(After(lanes, commit), x) ==
      (if x == commit.oid then 0 else Waits(lanes, x)) + multiset(Drawn(commit))[x]
  {
    hide LowestFree, Waiting, NodeColumn, ClaimAll, Trim, Merge;
    var node := NodeColumn(lanes, commit.oid);
    NodeIsFreeOrWaiting(lanes, commit.oid);
    var merged := Merge(lanes, commit.oid, node);
    MergeKeepsNode(lanes, commit.oid, node);
    MergeWaits(lanes, commit.oid, node, x);
    PlaceWaits(merged, node, if FirstIsDrawn(commit) then Some(commit.parents[0]) else None, x);
    ClaimAllWaits(Settled(lanes, commit), Rest(commit), x);
    TrimWaits(ClaimAll(Settled(lanes, commit), Rest(commit)).0, x);
    if FirstIsDrawn(commit) {
      assert Drawn(commit) == [commit.parents[0]] + Rest(commit);
    } else {
      assert Drawn(commit) == Rest(commit);
    }
  }

  lemma MergeKeepsNode(lanes: Lanes, oid: Oid, node: nat)
    ensures |Merge(lanes, oid, node)| == |lanes| && At(Merge(lanes, oid, node), node) == At(lanes, node)
  {
  }

  function Oids(commits: seq<Commit>): set<Oid> {
    set i | 0 <= i < |commits| :: commits[i].oid
  }

  /** Every parent edge leaving the given commits. */
  function ParentEdges(commits: seq<Commit>): multiset<Oid> {
    if commits == [] then multiset{}
    else ParentEdges(commits[..|commits| - 1]) + multiset(commits[|commits| - 1].parents)
  }

  /** No parent is listed before its child. */
  ghost predicate ChildrenFirst(commits: seq<Commit>) {
    forall i, j :: 0 <= i <= j < |commits| ==> commits[i].oid !in commits[j].parents
  }

  lemma NoEdgeToDrawn(commits: seq<Commit>, oid: Oid, i: nat, n: nat)
    requires ChildrenFirst(commits) && i < n <= |commits| && commits[i].oid == oid
    ensures multiset(commits[n - 1].parents)[oid] == 0
  {
    assert oid !in commits[n - 1].parents;
  }

  /** After any number of rows the lanes waiting for an undrawn oid are as many as the drawn edges to
      it, and none waits for a drawn one. (An empty first parent never gets a lane.) */
  lemma {:induction false} LanesAreOpenEdges(commits: seq<Commit>, oid: Oid)
    requires ChildrenFirst(commits) && oid != ""
    ensures Waits(LanesAfter(commits, []), oid) == if oid in Oids(commits) then 0 else ParentEdges(commits)[oid]
  {
    hide After, Drawn;
    if commits != [] {
      var n := |commits| - 1;
      var earlier, commit := commits[..n], commits[n];
      LanesAreOpenEdges(earlier, oid);
      AfterWaits(LanesAfter(earlier, []), commit, oid);
      assert Oids(commits) == Oids(earlier) + {commit.oid} by {
        assert forall i :: 0 <= i < n ==> earlier[i] == commits[i];
        assert forall x :: x in Oids(commits) ==> x in Oids(earlier) || x == commit.oid;
      }
      assert multiset(Drawn(commit))[oid] == multiset(commit.parents)[oid] by { DrawnCounts(commit, oid); }
      if oid in Oids(commits) {
        var i: nat :| i < |commits| && commits[i].oid == oid;
        NoEdgeToDrawn(commits, oid, i, n + 1);
      }
    }
  }

  lemma DrawnCounts(commit: Commit, oid: Oid)
    requires oid != ""
    ensures multiset(Drawn(commit))[oid] == multiset(commit.parents)[oid]
  {
    if commit.parents != [] && commit.parents[0] == "" {
      assert commit.parents == [""] + commit.parents[1..];
    }
  }
}
