/** Lane allocation of the commit graph: `web/src/lib/graph-lanes.ts`.

    The specification mentions only `lanes`. A column is free when it lies past the end or holds no
    oid, and every claim takes the lowest free column. The imperative code instead keeps a `freed`
    list that still names columns popped off `lanes`. `Allocates` is the invariant that makes the
    two agree, and it is also why a page can be continued from its last row alone. */
module GraphLanes {
  import opened Wrappers

  type Oid = string
  type Lanes = seq<Option<Oid>>

  datatype Commit = Commit(oid: Oid, parents: seq<Oid>)
  datatype Lane = Lane(column: nat, next: Oid)
  datatype Row = Row(commit: Commit, column: nat, totalColumns: nat, lanes: seq<Lane>, outgoing: seq<nat>)

  // ---------------------------------------------------------------- columns

  function At(lanes: Lanes, column: nat): Option<Oid> {
    if column < |lanes| then lanes[column] else None
  }

  /** Equal up to trailing empty columns. */
  ghost predicate Same(a: Lanes, b: Lanes) {
    forall c: nat :: At(a, c) == At(b, c)
  }

  function LowestFree(lanes: Lanes): (column: nat)
    ensures column <= |lanes| && At(lanes, column).None?
    ensures forall c: nat :: c < column ==> At(lanes, c).Some?
  {
    if |lanes| == 0 || lanes[0].None? then 0
    else
      var below := LowestFree(lanes[1..]);
      assert forall c: nat :: c > 0 ==> At(lanes, c) == At(lanes[1..], c - 1);
      below + 1
  }

  lemma LowestFreeIsUnique(lanes: Lanes, column: nat)
    requires At(lanes, column).None? && forall c: nat :: c < column ==> At(lanes, c).Some?
    ensures column == LowestFree(lanes)
  {
    var lowest := LowestFree(lanes);
    assert !(lowest < column) && !(column < lowest);
  }

  function Place(lanes: Lanes, column: nat, value: Option<Oid>): Lanes
    requires column <= |lanes|
  {
    if column < |lanes| then lanes[column := value] else lanes + [value]
  }

  /** The first column waiting for `oid`. */
  function Waiting(lanes: Lanes, oid: Oid): (column: Option<nat>)
    ensures column.Some? ==> column.value < |lanes| && lanes[column.value] == Some(oid)
    ensures column.Some? ==> forall c: nat :: c < column.value ==> At(lanes, c) != Some(oid)
    ensures column.None? ==> forall c: nat :: At(lanes, c) != Some(oid)
  {
    if |lanes| == 0 then None
    else if lanes[0] == Some(oid) then Some(0)
    else
      assert forall c: nat :: c > 0 ==> At(lanes, c) == At(lanes[1..], c - 1);
      match Waiting(lanes[1..], oid)
      case None => None
      case Some(c) => Some(c + 1)
  }

  function NodeColumn(lanes: Lanes, oid: Oid): (column: nat)
    ensures column <= |lanes|
  {
    match Waiting(lanes, oid)
    case Some(c) => c
    case None => LowestFree(lanes)
  }

  /** Empties every column other than `keep` that waits for `oid`. */
  function Merge(lanes: Lanes, oid: Oid, keep: nat): Lanes {
    seq(|lanes|, i requires 0 <= i < |lanes| => if lanes[i] == Some(oid) && i != keep then None else lanes[i])
  }

  function ClaimAll(lanes: Lanes, parents: seq<Oid>): (Lanes, seq<nat>) {
    if parents == [] then (lanes, [])
    else
      var (before, columns) := ClaimAll(lanes, parents[..|parents| - 1]);
      var column := LowestFree(before);
      (Place(before, column, Some(parents[|parents| - 1])), columns + [column])
  }

  function Trim(lanes: Lanes): (trimmed: Lanes)
    ensures Same(lanes, trimmed)
    ensures |trimmed| <= |lanes| && (trimmed != [] ==> trimmed[|trimmed| - 1].Some?)
  {
    if lanes != [] && lanes[|lanes| - 1].None? then Trim(lanes[..|lanes| - 1]) else lanes
  }

  lemma TrimIsCanonical(a: Lanes, b: Lanes)
    requires Same(a, b)
    ensures Trim(a) == Trim(b)
  {
    var x, y := Trim(a), Trim(b);
    assert forall c: nat :: At(x, c) == At(y, c) by {
      assert forall c: nat :: At(a, c) == At(x, c) && At(b, c) == At(y, c);
    }
    NotLonger(x, y);
    NotLonger(y, x);
    assert forall c :: 0 <= c < |x| ==> x[c] == At(x, c) == At(y, c) == y[c];
  }

  lemma NotLonger(x: Lanes, y: Lanes)
    requires Same(x, y) && (y != [] ==> y[|y| - 1].Some?)
    ensures |y| <= |x|
  {
    if y != [] {
      var last: nat := |y| - 1;
      assert At(x, last) == At(y, last);
    }
  }

  // ------------------------------------------------------------------- rows

  /** The occupied columns of the first `n` lanes, in column order. */
  function IncomingUpTo(lanes: Lanes, n: nat): (incoming: seq<Lane>)
    requires n <= |lanes|
    ensures forall lane :: lane in incoming <==> lane.column < n && lanes[lane.column] == Some(lane.next)
    ensures forall i, j :: 0 <= i < j < |incoming| ==> incoming[i].column < incoming[j].column
  {
    if n == 0 then []
    else
      var before := IncomingUpTo(lanes, n - 1);
      if lanes[n - 1].None? then before
      else
        assert forall i :: 0 <= i < |before| ==> before[i] in before;
        before + [Lane(n - 1, lanes[n - 1].value)]
  }

  function Incoming(lanes: Lanes): seq<Lane> {
    IncomingUpTo(lanes, |lanes|)
  }

  /** Some lane is in this column. */
  ghost predicate Taken(lanes: seq<Lane>, column: nat) {
    exists lane :: lane in lanes && lane.column == column
  }

  /** A commit sits on the first lane that waits for it, and without one in the lowest column that no lane takes. */
  ghost predicate Sits(lanes: seq<Lane>, oid: Oid, column: nat) {
    if exists lane :: lane in lanes && lane.next == oid
    then Lane(column, oid) in lanes && forall lane :: lane in lanes && lane.next == oid ==> column <= lane.column
    else !Taken(lanes, column) && forall c: nat :: c < column ==> Taken(lanes, c)
  }

  lemma NodeSits(lanes: Lanes, oid: Oid)
    ensures Sits(Incoming(lanes), oid, NodeColumn(lanes, oid))
  {
    hide LowestFree, Waiting;
    var incoming, column := Incoming(lanes), NodeColumn(lanes, oid);
    assert forall lane: Lane :: lane in incoming <==> At(lanes, lane.column) == Some(lane.next);
    if Waiting(lanes, oid).Some? {
      assert Lane(column, oid) in incoming;
    } else {
      forall c: nat | c < column ensures Taken(incoming, c) { assert Lane(c, At(lanes, c).value) in incoming; }
    }
  }

  function Max(a: int, b: int): int {
    if a < b then b else a
  }

  function MaxColumn(incoming: seq<Lane>): (m: int)
    ensures m >= -1
    ensures forall lane :: lane in incoming ==> lane.column <= m
    ensures m >= 0 ==> exists lane :: lane in incoming && lane.column == m
  {
    if incoming == [] then -1
    else
      var rest := MaxColumn(incoming[..|incoming| - 1]);
      var last := incoming[|incoming| - 1];
      assert incoming == incoming[..|incoming| - 1] + [last];
      Max(rest, last.column)
  }

  /** The parents that get a lane: a first parent spelt as the empty string counts as absent. */
  function Drawn(commit: Commit): seq<Oid> {
    if commit.parents != [] && commit.parents[0] == "" then commit.parents[1..] else commit.parents
  }

  predicate FirstIsDrawn(commit: Commit) {
    commit.parents != [] && commit.parents[0] != ""
  }

  function Rest(commit: Commit): seq<Oid> {
    if commit.parents == [] then [] else commit.parents[1..]
  }

  /** The lanes once the node's own column has been settled, before the other parents claim theirs. */
  function Settled(lanes: Lanes, commit: Commit): Lanes {
    var node := NodeColumn(lanes, commit.oid);
    Place(Merge(lanes, commit.oid, node), node, if FirstIsDrawn(commit) then Some(commit.parents[0]) else None)
  }

  function After(lanes: Lanes, commit: Commit): Lanes {
    Trim(ClaimAll(Settled(lanes, commit), Rest(commit)).0)
  }

  function RowOf(lanes: Lanes, commit: Commit): Row {
    var node := NodeColumn(lanes, commit.oid);
    var incoming := Incoming(lanes);
    Row(commit, node,
        Max(Max(node + 1, MaxColumn(incoming) + 1), |After(lanes, commit)|),
        incoming,
        (if FirstIsDrawn(commit) then [node] else []) + ClaimAll(Settled(lanes, commit), Rest(commit)).1)
  }

  function LanesAfter(commits: seq<Commit>, initial: Lanes): Lanes {
    if commits == [] then initial
    else After(LanesAfter(commits[..|commits| - 1], initial), commits[|commits| - 1])
  }

  function Rows(commits: seq<Commit>, initial: Lanes): (rows: seq<Row>)
    ensures |rows| == |commits|
  {
    if commits == [] then []
    else
      var before := commits[..|commits| - 1];
      Rows(before, initial) + [RowOf(LanesAfter(before, initial), commits[|commits| - 1])]
  }

  lemma {:induction false} RowAt(commits: seq<Commit>, initial: Lanes, i: nat)
    requires i < |commits|
    ensures Rows(commits, initial)[i] == RowOf(LanesAfter(commits[..i], initial), commits[i])
  {
    hide RowOf, After;
    if i < |commits| - 1 {
      RowAt(commits[..|commits| - 1], initial, i);
      assert commits[..|commits| - 1][..i] == commits[..i];
    }
  }

  lemma {:induction false} RowsCompose(a: seq<Commit>, b: seq<Commit>, initial: Lanes)
    ensures LanesAfter(a + b, initial) == LanesAfter(b, LanesAfter(a, initial))
    ensures Rows(a + b, initial) == Rows(a, initial) + Rows(b, LanesAfter(a, initial))
  {
    hide RowOf, After;
    if b == [] {
      assert a + b == a;
    } else {
      assert (a + b)[..|a + b| - 1] == a + b[..|b| - 1];
      RowsCompose(a, b[..|b| - 1], initial);
    }
  }

  // ------------------------------------------------------ the imperative code

  /** `freed` names, once each, exactly the free columns below the high-water mark. Columns popped
      off the end of `lanes` stay in it. `reserved` is a column already claimed but not yet written. */
  ghost predicate Allocates(lanes: Lanes, freed: seq<nat>, high: nat, reserved: Option<nat>) {
    && |lanes| <= high
    && (reserved.Some? ==> reserved.value < high)
    && (forall c: nat {:trigger c in freed} ::
          c in freed <==> c < high && At(lanes, c).None? && reserved != Some(c))
    && (forall i, j :: 0 <= i < j < |freed| ==> freed[i] != freed[j])
  }

  lemma RemovedOnce(freed: seq<nat>, at: nat)
    requires at < |freed| && forall i, j :: 0 <= i < j < |freed| ==> freed[i] != freed[j]
    ensures var rest := freed[..at] + freed[at + 1..];
      && (forall i, j :: 0 <= i < j < |rest| ==> rest[i] != rest[j])
      && forall c: nat :: c in rest <==> c in freed && c != freed[at]
  {
    var rest := freed[..at] + freed[at + 1..];
    forall c: nat ensures c in rest <==> c in freed && c != freed[at] {
      if c in freed && c != freed[at] {
        var k :| 0 <= k < |freed| && freed[k] == c;
        assert rest[if k < at then k else k - 1] == c;
      }
    }
  }

  /** Taking the least freed column, or the next new one, always takes the lowest free column. */
  method ClaimColumn(lanes: Lanes, freed: seq<nat>, ghost high: nat)
    returns (column: nat, rest: seq<nat>, ghost high': nat)
    requires Allocates(lanes, freed, high, None)
    ensures column == LowestFree(lanes)
    ensures Allocates(lanes, rest, high', Some(column))
  {
    if |freed| > 0 {
      var min := 0;
      for i := 1 to |freed|
        invariant 0 <= min < |freed|
        invariant forall k :: 0 <= k < i ==> freed[min] <= freed[k]
      {
        if freed[i] < freed[min] { min := i; }
      }
      column := freed[min];
      rest := freed[..min] + freed[min + 1..];
      high' := high;
      assert column in freed;
      RemovedOnce(freed, min);
      assert forall c: nat :: c in freed ==> column <= c;
      forall c: nat | c < column ensures At(lanes, c).Some? { assert c !in freed; }
      assert At(lanes, column).None?;
      LowestFreeIsUnique(lanes, column);
    } else {
      column, rest, high' := |lanes|, freed, |lanes| + 1;
      assert |lanes| !in freed;
      forall c: nat | c < column ensures At(lanes, c).Some? { assert c !in freed; }
      LowestFreeIsUnique(lanes, column);
    }
  }

  method FindWaiting(lanes: Lanes, oid: Oid) returns (column: int)
    ensures column == match Waiting(lanes, oid) case Some(c) => c as int case None => -1
  {
    column := -1;
    for i := 0 to |lanes|
      invariant column == -1
      invariant forall c: nat {:trigger At(lanes, c)} :: c < i ==> At(lanes, c) != Some(oid)
    {
      if lanes[i] == Some(oid) {
        column := i;
        assert At(lanes, i) == Some(oid);
        var first := Waiting(lanes, oid);
        assert At(lanes, first.value) == Some(oid);
        return;
      }
    }
    ghost var first := Waiting(lanes, oid);
    assert first.Some? ==> At(lanes, first.value) == Some(oid);
  }

  method CollectIncoming(lanes: Lanes) returns (incoming: seq<Lane>)
    ensures incoming == Incoming(lanes)
  {
    incoming := [];
    for i := 0 to |lanes|
      invariant incoming == IncomingUpTo(lanes, i)
    {
      if lanes[i].Some? { incoming := incoming + [Lane(i, lanes[i].value)]; }
    }
  }

  method MergeIntoNode(lanes: Lanes, freed: seq<nat>, oid: Oid, node: nat, ghost high: nat)
    returns (merged: Lanes, freed': seq<nat>)
    requires At(lanes, node) in {None, Some(oid)}
    requires Allocates(lanes, freed, high, if At(lanes, node).Some? then None else Some(node))
    ensures merged == Merge(lanes, oid, node)
    ensures Allocates(merged, freed', high, if At(lanes, node).Some? then None else Some(node))
  {
    merged, freed' := lanes, freed;
    ghost var reserved := if At(lanes, node).Some? then None else Some(node);
    for i := 0 to |lanes|
      invariant |merged| == |lanes|
      invariant forall c :: 0 <= c < i ==> merged[c] == Merge(lanes, oid, node)[c]
      invariant forall c :: i <= c < |lanes| ==> merged[c] == lanes[c]
      invariant Allocates(merged, freed', high, reserved)
    {
      if merged[i] == Some(oid) && i != node {
        assert At(merged, i).Some? && i !in freed';
        merged := merged[i := None];
        freed' := freed' + [i];
      }
    }
  }

  method TrimLanes(lanes: Lanes) returns (trimmed: Lanes)
    ensures trimmed == Trim(lanes)
  {
    trimmed := lanes;
    while |trimmed| > 0 && trimmed[|trimmed| - 1].None?
      invariant Trim(trimmed) == Trim(lanes)
    {
      trimmed := trimmed[..|trimmed| - 1];
    }
  }

  lemma AllocatesSame(a: Lanes, b: Lanes, freed: seq<nat>, high: nat)
    requires Same(a, b) && Allocates(a, freed, high, None) && |b| <= |a|
    ensures Allocates(b, freed, high, None)
  {
    assert forall c: nat :: At(a, c) == At(b, c);
  }

  method ClaimParents(lanes: Lanes, freed: seq<nat>, parents: seq<Oid>, outgoing: seq<nat>, ghost high: nat)
    returns (lanes': Lanes, freed': seq<nat>, outgoing': seq<nat>, ghost high': nat)
    requires Allocates(lanes, freed, high, None)
    ensures lanes' == ClaimAll(lanes, parents).0 && outgoing' == outgoing + ClaimAll(lanes, parents).1
    ensures Allocates(lanes', freed', high', None)
  {
    lanes', freed', outgoing', high' := lanes, freed, outgoing, high;
    for k := 0 to |parents|
      invariant lanes' == ClaimAll(lanes, parents[..k]).0
      invariant outgoing' == outgoing + ClaimAll(lanes, parents[..k]).1
      invariant Allocates(lanes', freed', high', None)
    {
      assert parents[..k + 1][..k] == parents[..k];
      var column;
      column, freed', high' := ClaimColumn(lanes', freed', high');
      outgoing' := outgoing' + [column];
      lanes' := Place(lanes', column, Some(parents[k]));
    }
    assert parents[..|parents|] == parents;
  }

  method ComputeGraphFrom(commits: seq<Commit>, initialLanes: Lanes) returns (rows: seq<Row>)
    ensures rows == Rows(commits, initialLanes)
  {
    var lanes := initialLanes;
    var freed: seq<nat> := [];
    for column := 0 to |lanes|
      invariant lanes == initialLanes
      invariant forall c: nat :: c in freed <==> c < column && lanes[c].None?
      invariant forall i, j :: 0 <= i < j < |freed| ==> freed[i] != freed[j]
    {
      if lanes[column].None? { freed := freed + [column]; }
    }
    ghost var high: nat := |lanes|;
    rows := [];
    for n := 0 to |commits|
      invariant lanes == LanesAfter(commits[..n], initialLanes)
      invariant rows == Rows(commits[..n], initialLanes)
      invariant Allocates(lanes, freed, high, None)
    {
      assert commits[..n + 1][..n] == commits[..n];
      var commit := commits[n];
      var row;
      row, lanes, freed, high := DrawRow(lanes, freed, commit, high);
      rows := rows + [row];
    }
    assert commits[..|commits|] == commits;
  }

  /** Finds or claims the node's column, collects the incoming lanes and settles the node's column. */
  method SettleNode(before: Lanes, freed: seq<nat>, commit: Commit, ghost high: nat)
    returns (node: nat, incoming: seq<Lane>, lanes: Lanes, freed': seq<nat>, outgoing: seq<nat>, ghost high': nat)
    requires Allocates(before, freed, high, None)
    ensures node == NodeColumn(before, commit.oid) && incoming == Incoming(before)
    ensures Sits(incoming, commit.oid, node)
    ensures lanes == Settled(before, commit)
    ensures outgoing == if FirstIsDrawn(commit) then [node] else []
    ensures Allocates(lanes, freed', high', None)
  {
    NodeSits(before, commit.oid);
    hide Sits;
    freed', high' := freed, high;
    var found := FindWaiting(before, commit.oid);
    if found == -1 {
      node, freed', high' := ClaimColumn(before, freed', high');
    } else {
      node := found;
    }
    incoming := CollectIncoming(before);
    lanes, freed' := MergeIntoNode(before, freed', commit.oid, node, high');
    if FirstIsDrawn(commit) {
      lanes := Place(lanes, node, Some(commit.parents[0]));
      outgoing := [node];
    } else {
      assert node !in freed';
      lanes := Place(lanes, node, None);
      freed' := freed' + [node];
      outgoing := [];
    }
  }

  method MaxIncoming(incoming: seq<Lane>) returns (max: int)
    ensures max == MaxColumn(incoming)
  {
    max := -1;
    for i := 0 to |incoming|
      invariant max == MaxColumn(incoming[..i])
    {
      assert incoming[..i + 1][..i] == incoming[..i];
      max := Max(max, incoming[i].column);
    }
    assert incoming[..|incoming|] == incoming;
  }

  /** One turn of the loop over commits. */
  method DrawRow(before: Lanes, freed: seq<nat>, commit: Commit, ghost high: nat)
    returns (row: Row, lanes: Lanes, freed': seq<nat>, ghost high': nat)
    requires Allocates(before, freed, high, None)
    ensures row == RowOf(before, commit) && lanes == After(before, commit)
    ensures Allocates(lanes, freed', high', None)
  {
    hide Settled, ClaimAll, Trim, Allocates, NodeColumn, Incoming, MaxColumn;
    var node, incoming, outgoing;
    node, incoming, lanes, freed', outgoing, high' := SettleNode(before, freed, commit, high);
    lanes, freed', outgoing, high' := ClaimParents(lanes, freed', Rest(commit), outgoing, high');
    var trimmed := TrimLanes(lanes);
    AllocatesSame(lanes, trimmed, freed', high');
    lanes := trimmed;
    var max := MaxIncoming(incoming);
    row := Row(commit, node, Max(Max(node + 1, max + 1), |lanes|), incoming, outgoing);
  }

  method ComputeGraph(commits: seq<Commit>) returns (rows: seq<Row>)
    ensures rows == Rows(commits, [])
  {
    rows := ComputeGraphFrom(commits, []);
  }
}
