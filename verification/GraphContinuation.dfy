/** What graph paging and drawing promise: a page appended to drawn rows continues as a computation
    from scratch would, and the lanes between two rows are exactly the edges still to be drawn. */
module GraphContinuation {
  import opened Wrappers
  import opened GraphLanes

  // ------------------------------------------------------ equal up to padding

  lemma LowestFreeSame(a: Lanes, b: Lanes)
    requires Same(a, b)
    ensures LowestFree(a) == LowestFree(b)
  {
    var column := LowestFree(b);
    assert forall c: nat :: At(a, c) == At(b, c);
    LowestFreeIsUnique(a, column);
  }

  lemma PlaceSame(a: Lanes, b: Lanes, column: nat, value: Option<Oid>)
    requires Same(a, b) && column <= |a| && column <= |b|
    ensures Same(Place(a, column, value), Place(b, column, value))
  {
    forall c: nat ensures At(Place(a, column, value), c) == At(Place(b, column, value), c) {
      assert At(a, c) == At(b, c);
    }
  }

  lemma {:induction false} ClaimAllSame(a: Lanes, b: Lanes, parents: seq<Oid>)
    requires Same(a, b)
    ensures Same(ClaimAll(a, parents).0, ClaimAll(b, parents).0)
    ensures ClaimAll(a, parents).1 == ClaimAll(b, parents).1
  {
    hide Place, Same, LowestFree;
    if parents != [] {
      var before := parents[..|parents| - 1];
      ClaimAllSame(a, b, before);
      var x, y := ClaimAll(a, before).0, ClaimAll(b, before).0;
      LowestFreeSame(x, y);
      PlaceSame(x, y, LowestFree(x), Some(parents[|parents| - 1]));
    }
  }

  // ------------------------------------------------------ the appended page

  function MaxOf(columns: seq<nat>): int {
    if columns == [] then -1 else Max(MaxOf(columns[..|columns| - 1]), columns[|columns| - 1])
  }

  function LaneCount(last: Row): (count: nat)
    ensures last.column < count && forall lane :: lane in last.lanes ==> lane.column < count
  {
    Max(Max(last.totalColumns, last.column + 1), Max(MaxColumn(last.lanes) + 1, MaxOf(last.outgoing) + 1))
  }

  function Fill(count: nat, lanes: seq<Lane>): (filled: Lanes)
    requires forall lane :: lane in lanes ==> lane.column < count
    ensures |filled| == count
  {
    if lanes == [] then seq(count, _ => None)
    else
      var last := lanes[|lanes| - 1];
      Fill(count, lanes[..|lanes| - 1])[last.column := Some(last.next)]
  }

  /** The last row's node column, with `first ?? null` where the drawing loop tests `if (first)`. */
  function Reseated(last: Row): Lanes {
    Place(Merge(Fill(LaneCount(last), last.lanes), last.commit.oid, last.column), last.column,
          if last.commit.parents == [] then None else Some(last.commit.parents[0]))
  }

  function Restored(last: Row): Lanes {
    Trim(ClaimAll(Reseated(last), Rest(last.commit)).0)
  }

  function Append(existing: seq<Row>, commits: seq<Commit>): seq<Row> {
    if existing == [] then Rows(commits, [])
    else if commits == [] then existing
    else existing + Rows(commits, Restored(existing[|existing| - 1]))
  }

  method FreeColumn(lanes: Lanes) returns (column: nat)
    ensures column == LowestFree(lanes)
  {
    column := 0;
    while column < |lanes| && lanes[column].Some?
      invariant column <= |lanes| && forall c: nat :: c < column ==> At(lanes, c).Some?
    {
      column := column + 1;
    }
    LowestFreeIsUnique(lanes, column);
  }

  method RestoreLanes(last: Row) returns (lanes: Lanes)
    ensures lanes == Restored(last)
  {
    lanes := seq(LaneCount(last), _ => None);
    for i := 0 to |last.lanes|
      invariant lanes == Fill(LaneCount(last), last.lanes[..i])
    {
      assert last.lanes[..i + 1][..i] == last.lanes[..i];
      lanes := lanes[last.lanes[i].column := Some(last.lanes[i].next)];
    }
    assert last.lanes[..|last.lanes|] == last.lanes;
    ghost var filled := lanes;
    for column := 0 to |lanes|
      invariant |lanes| == |filled|
      invariant forall c :: 0 <= c < column ==> lanes[c] == Merge(filled, last.commit.oid, last.column)[c]
      invariant forall c :: column <= c < |lanes| ==> lanes[c] == filled[c]
    {
      if lanes[column] == Some(last.commit.oid) && column != last.column { lanes := lanes[column := None]; }
    }
    assert lanes == Merge(filled, last.commit.oid, last.column);
    lanes := lanes[last.column := if last.commit.parents == [] then None else Some(last.commit.parents[0])];
    var rest := Rest(last.commit);
    for k := 0 to |rest|
      invariant lanes == ClaimAll(Reseated(last), rest[..k]).0
    {
      assert rest[..k + 1][..k] == rest[..k];
      var column := FreeColumn(lanes);
      lanes := Place(lanes, column, Some(rest[k]));
    }
    assert rest[..|rest|] == rest;
    lanes := TrimLanes(lanes);
  }

  method AppendGraph(existing: seq<Row>, commits: seq<Commit>) returns (rows: seq<Row>)
    ensures rows == Append(existing, commits)
  {
    if |existing| == 0 {
      rows := ComputeGraph(commits);
    } else if |commits| == 0 {
      rows := existing;
    } else {
      var lanes := RestoreLanes(existing[|existing| - 1]);
      rows := ComputeGraphFrom(commits, lanes);
      rows := existing + rows;
    }
  }

  // ------------------------------------------------------ when appending continues

  lemma {:induction false} FilledAt(count: nat, lanes: seq<Lane>, column: nat)
    requires forall lane :: lane in lanes ==> lane.column < count
    requires forall i, j :: 0 <= i < j < |lanes| ==> lanes[i].column < lanes[j].column
    ensures forall next :: At(Fill(count, lanes), column) == Some(next) <==> Lane(column, next) in lanes
  {
    if lanes != [] {
      var before, last := lanes[..|lanes| - 1], lanes[|lanes| - 1];
      FilledAt(count, before, column);
      assert forall lane :: lane in lanes <==> lane in before || lane == last;
      assert forall lane :: lane in before ==> lane.column < last.column;
    }
  }

  lemma RefilledLanes(lanes: Lanes, count: nat)
    requires forall lane :: lane in Incoming(lanes) ==> lane.column < count
    ensures Same(Fill(count, Incoming(lanes)), lanes)
  {
    var filled := Fill(count, Incoming(lanes));
    forall c: nat ensures At(filled, c) == At(lanes, c) {
      FilledAt(count, Incoming(lanes), c);
      if At(filled, c).Some? {
        assert Lane(c, At(filled, c).value) in Incoming(lanes);
      } else if At(lanes, c).Some? {
        assert Lane(c, At(lanes, c).value) in Incoming(lanes);
      }
    }
  }

  /** The rebuilt lanes differ from the drawn ones in the node's column at most, and only for an empty first parent. */
  lemma ReseatedAt(lanes: Lanes, commit: Commit, c: nat)
    ensures var node := NodeColumn(lanes, commit.oid);
      var (mine, theirs) := (At(Reseated(RowOf(lanes, commit)), c), At(Settled(lanes, commit), c));
      if c != node then mine == theirs
      else && mine == (if commit.parents == [] then None else Some(commit.parents[0]))
           && theirs == (if FirstIsDrawn(commit) then Some(commit.parents[0]) else None)
  {
    hide After, ClaimAll, LowestFree, Waiting, NodeColumn, Fill, LaneCount, IncomingUpTo;
    var row := RowOf(lanes, commit);
    var filled := Fill(LaneCount(row), row.lanes);
    RefilledLanes(lanes, LaneCount(row));
    assert At(filled, c) == At(lanes, c);
  }

  function Occupied(lanes: Lanes): set<nat> {
    set c: nat | c < |lanes| && lanes[c].Some?
  }

  lemma OccupiedSame(a: Lanes, b: Lanes)
    requires Same(a, b)
    ensures Occupied(a) == Occupied(b)
  {
    assert forall c: nat :: c in Occupied(a) <==> At(a, c).Some?;
    assert forall c: nat :: c in Occupied(b) <==> At(b, c).Some?;
  }

  lemma OccupiedIsIncoming(lanes: Lanes)
    ensures Occupied(lanes) == set lane | lane in Incoming(lanes) :: lane.column
  {
    forall c | c in Occupied(lanes) ensures exists lane :: lane in Incoming(lanes) && lane.column == c {
      assert Lane(c, lanes[c].value) in Incoming(lanes);
    }
  }

  lemma {:induction false} ClaimAllOccupies(lanes: Lanes, parents: seq<Oid>)
    ensures |Occupied(ClaimAll(lanes, parents).0)| == |Occupied(lanes)| + |parents|
  {
    if parents != [] {
      ClaimAllOccupies(lanes, parents[..|parents| - 1]);
      var before := ClaimAll(lanes, parents[..|parents| - 1]).0;
      var column := LowestFree(before);
      assert Occupied(ClaimAll(lanes, parents).0) == Occupied(before) + {column};
    }
  }

  lemma RestoredIffDrawn(lanes: Lanes, commit: Commit)
    ensures commit.parents == [] || commit.parents[0] != "" ==> Restored(RowOf(lanes, commit)) == After(lanes, commit)
    ensures commit.parents != [] && commit.parents[0] == "" ==>
              Incoming(Restored(RowOf(lanes, commit))) != Incoming(After(lanes, commit))
  {
    hide ClaimAll, Incoming, NodeColumn, Trim, Reseated, Settled;
    var row := RowOf(lanes, commit);
    var mine, theirs := Reseated(row), Settled(lanes, commit);
    forall c: nat
      ensures c != row.column ==> At(mine, c) == At(theirs, c)
      ensures c == row.column ==> At(mine, c) == (if commit.parents == [] then None else Some(commit.parents[0]))
      ensures c == row.column ==> At(theirs, c) == (if FirstIsDrawn(commit) then Some(commit.parents[0]) else None)
    {
      ReseatedAt(lanes, commit, c);
    }
    var rest := Rest(commit);
    if commit.parents == [] || commit.parents[0] != "" {
      ClaimAllSame(mine, theirs, rest);
      TrimIsCanonical(ClaimAll(mine, rest).0, ClaimAll(theirs, rest).0);
    } else {
      assert Occupied(mine) == Occupied(theirs) + {row.column} by {
        assert forall c: nat :: c in Occupied(mine) <==> At(mine, c).Some?;
        assert forall c: nat :: c in Occupied(theirs) <==> At(theirs, c).Some?;
      }
      assert row.column !in Occupied(theirs) by { assert At(theirs, row.column).None?; }
      ClaimAllOccupies(mine, rest);
      ClaimAllOccupies(theirs, rest);
      OccupiedSame(ClaimAll(mine, rest).0, Restored(row));
      OccupiedSame(ClaimAll(theirs, rest).0, After(lanes, commit));
      OccupiedIsIncoming(Restored(row));
      OccupiedIsIncoming(After(lanes, commit));
    }
  }

  /** Checkable from the drawn rows: the last drawn commit has no parents or a non-empty first one. */
  predicate Resumable(drawn: seq<Commit>, more: seq<Commit>) {
    || drawn == [] || more == []
    || drawn[|drawn| - 1].parents == [] || drawn[|drawn| - 1].parents[0] != ""
  }

  lemma FirstRowShowsLanes(commits: seq<Commit>, a: Lanes, b: Lanes)
    requires commits != [] && Incoming(a) != Incoming(b)
    ensures Rows(commits, a) != Rows(commits, b)
  {
    RowAt(commits, a, 0);
    RowAt(commits, b, 0);
    assert commits[..0] == [];
    assert Rows(commits, a)[0].lanes == Incoming(a);
    assert Rows(commits, b)[0].lanes == Incoming(b);
  }

  /** Appending a page equals computing everything from scratch exactly when the drawn page is resumable. */
  lemma AppendContinues(drawn: seq<Commit>, more: seq<Commit>)
    ensures Append(Rows(drawn, []), more) == Rows(drawn + more, []) <==> Resumable(drawn, more)
  {
    hide RowOf, After, Restored;
    if drawn == [] {
      assert drawn + more == more;
    } else if more == [] {
      assert drawn + more == drawn;
    } else {
      var before, commit := drawn[..|drawn| - 1], drawn[|drawn| - 1];
      var lanes := LanesAfter(before, []);
      RowsCompose(drawn, more, []);
      assert Rows(drawn, [])[|drawn| - 1] == RowOf(lanes, commit);
      RestoredIffDrawn(lanes, commit);
      if !Resumable(drawn, more) {
        FirstRowShowsLanes(more, Restored(RowOf(lanes, commit)), After(lanes, commit));
        var scratch, resumed := Rows(more, After(lanes, commit)), Rows(more, Restored(RowOf(lanes, commit)));
        assert (Rows(drawn, []) + scratch)[|drawn|..] == scratch;
        assert (Rows(drawn, []) + resumed)[|drawn|..] == resumed;
      }
    }
  }

  /** The smallest input on which the two forms part: an empty first parent, then any commit. */
  lemma EmptyFirstParentBreaksAppend()
    ensures Append(Rows([Commit("b", [""])], []), [Commit("a", [])]) != Rows([Commit("b", [""]), Commit("a", [])], [])
  {
    var drawn, more := [Commit("b", [""])], [Commit("a", [])];
    assert drawn + more == [Commit("b", [""]), Commit("a", [])];
    AppendContinues(drawn, more);
  }
}
