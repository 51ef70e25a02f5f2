/** Reading one line in buffer-sized chunks, and matching a path against a glob:
    `internal/app/content_search_lines.go`, `internal/app/content_search.go`. */
module ContentLines {
  import opened ByteStrings
  import opened Wrappers

  const NEWLINE: Byte := 10
  const RETURN: Byte := 13
  const BUFFERED_LINE_LIMIT := 65536

  function Joined(chunks: seq<Bytes>): Bytes {
    if chunks == [] then [] else Joined(chunks[..|chunks| - 1]) + chunks[|chunks| - 1]
  }

  /** The line without its line end: a newline, and then a carriage return. */
  function TextLength(line: Bytes): (n: nat)
    ensures n <= |line|
  {
    var n := if line != [] && line[|line| - 1] == NEWLINE then |line| - 1 else |line|;
    if n > 0 && line[n - 1] == RETURN then n - 1 else n
  }

  lemma JoinedMore(chunks: seq<Bytes>, i: nat)
    requires i < |chunks|
    ensures Joined(chunks[..i + 1]) == Joined(chunks[..i]) + chunks[i]
  {
    assert chunks[..i + 1][..i] == chunks[..i];
  }

  /** The chunks are those the buffered reader returns up to a newline or the end of the file. However the
      line was cut, the size counts all of it, the length leaves the line end out, and the text is kept
      unless the line is longer than the limit. */
  method ReadContentSearchLine(chunks: seq<Bytes>) returns (line: Option<Bytes>, size: nat, length: nat)
    requires chunks != []
    ensures var whole := Joined(chunks);
      && size == |whole| && length == TextLength(whole)
      && line == if |whole| <= BUFFERED_LINE_LIMIT then Some(whole[..length]) else None
  {
    var kept: Option<Bytes> := Some([]);
    var previous: Byte, last: Byte := 0, 0;
    size := 0;
    for i := 0 to |chunks|
      invariant size == |Joined(chunks[..i])|
      invariant last == if size > 0 then Joined(chunks[..i])[size - 1] else 0
      invariant previous == if size > 1 then Joined(chunks[..i])[size - 2] else 0
      invariant kept == if size <= BUFFERED_LINE_LIMIT then Some(Joined(chunks[..i])) else None
    {
      var chunk := chunks[i];
      JoinedMore(chunks, i);
      if |chunk| > 0 {
        previous := if |chunk| > 1 then chunk[|chunk| - 2] else last;
        last := chunk[|chunk| - 1];
      }
      size := size + |chunk|;
      kept := if size <= BUFFERED_LINE_LIMIT && kept.Some? then Some(kept.value + chunk) else None;
    }
    assert chunks[..|chunks|] == chunks;
    length := size;
    if last == NEWLINE && size > 0 {
      length := length - 1;
      last := previous;
    }
    if last == RETURN && length > 0 { length := length - 1; }
    line := if kept.Some? then Some(kept.value[..length]) else None;
  }

  // ------------------------------------------------------ globs

  const ANY_DEPTH := "**"

  /** `segment` stands for path.Match on one path segment. */
  type SegmentMatch = (string, string) -> bool

  /** The path splits into consecutive stretches, one for each pattern segment: `cuts[i]` is where the i-th
      begins. A `**` takes any stretch, every other segment takes one part that it matches. */
  ghost predicate Splits(patterns: seq<string>, parts: seq<string>, cuts: seq<nat>, segment: SegmentMatch) {
    && |cuts| == |patterns| + 1 && cuts[0] == 0 && cuts[|patterns|] == |parts|
    && forall i :: 0 <= i < |patterns| ==> Takes(patterns[i], parts, cuts[i], cuts[i + 1], segment)
  }

  predicate Takes(pattern: string, parts: seq<string>, from: nat, to: nat, segment: SegmentMatch) {
    && from <= to <= |parts|
    && (pattern != ANY_DEPTH ==> to == from + 1 && segment(pattern, parts[from]))
  }

  ghost predicate GlobMatches(patterns: seq<string>, parts: seq<string>, segment: SegmentMatch) {
    exists cuts :: Splits(patterns, parts, cuts, segment)
  }

  lemma NoPatterns(parts: seq<string>, segment: SegmentMatch)
    ensures GlobMatches([], parts, segment) <==> parts == []
  {
    if parts == [] { assert Splits([], parts, [0], segment); }
  }

  /** One more pattern segment matches what its predecessors and its own stretch make up. */
  lemma ExtendSplit(patterns: seq<string>, pattern: string, parts: seq<string>, from: nat, segment: SegmentMatch)
    requires from <= |parts| && GlobMatches(patterns, parts[..from], segment) && Takes(pattern, parts, from, |parts|, segment)
    ensures GlobMatches(patterns + [pattern], parts, segment)
  {
    var cuts: seq<nat> :| Splits(patterns, parts[..from], cuts, segment);
    var more: seq<nat> := cuts + [|parts|];
    var all := patterns + [pattern];
    forall i | 0 <= i < |all| ensures Takes(all[i], parts, more[i], more[i + 1], segment) {
      if i < |patterns| { assert Takes(patterns[i], parts[..from], cuts[i], cuts[i + 1], segment); }
    }
    assert Splits(all, parts, more, segment);
  }

  lemma ShrinkSplit(patterns: seq<string>, pattern: string, parts: seq<string>, segment: SegmentMatch) returns (from: nat)
    requires GlobMatches(patterns + [pattern], parts, segment)
    ensures from <= |parts| && GlobMatches(patterns, parts[..from], segment) && Takes(pattern, parts, from, |parts|, segment)
  {
    var all := patterns + [pattern];
    var cuts: seq<nat> :| Splits(all, parts, cuts, segment);
    from := cuts[|patterns|];
    var fewer := cuts[..|patterns| + 1];
    assert Takes(all[|patterns|], parts, from, |parts|, segment);
    CutsIncrease(all, parts, cuts, segment, |patterns|);
    forall i | 0 <= i < |patterns| ensures Takes(patterns[i], parts[..from], fewer[i], fewer[i + 1], segment) {
      assert Takes(all[i], parts, cuts[i], cuts[i + 1], segment) && cuts[i + 1] <= from;
    }
    assert Splits(patterns, parts[..from], fewer, segment);
  }

  lemma {:induction false} CutsIncrease(patterns: seq<string>, parts: seq<string>, cuts: seq<nat>, segment: SegmentMatch, n: nat)
    requires Splits(patterns, parts, cuts, segment) && n <= |patterns|
    ensures forall i :: 0 <= i <= n ==> cuts[i] <= cuts[n]
  {
    if n > 0 {
      CutsIncrease(patterns, parts, cuts, segment, n - 1);
      assert Takes(patterns[n - 1], parts, cuts[n - 1], cuts[n], segment);
    }
  }

  /** One entry of a row from the row before and the entry to its left. */
  lemma NextEntry(patterns: seq<string>, pattern: string, parts: seq<string>, segment: SegmentMatch)
    ensures var all := patterns + [pattern];
      if pattern == ANY_DEPTH then
        GlobMatches(all, parts, segment)
        <==> GlobMatches(patterns, parts, segment) || (parts != [] && GlobMatches(all, parts[..|parts| - 1], segment))
      else
        GlobMatches(all, parts, segment)
        <==> parts != [] && segment(pattern, parts[|parts| - 1]) && GlobMatches(patterns, parts[..|parts| - 1], segment)
  {
    hide GlobMatches;
    var all, n := patterns + [pattern], |parts|;
    assert parts[..n] == parts;
    if GlobMatches(all, parts, segment) {
      var from := ShrinkSplit(patterns, pattern, parts, segment);
      if pattern == ANY_DEPTH && from < n {
        assert parts[..n - 1][..from] == parts[..from];
        ExtendSplit(patterns, pattern, parts[..n - 1], from, segment);
      }
    }
    if pattern == ANY_DEPTH {
      if GlobMatches(patterns, parts, segment) { ExtendSplit(patterns, pattern, parts, n, segment); }
      if n > 0 && GlobMatches(all, parts[..n - 1], segment) {
        var from := ShrinkSplit(patterns, pattern, parts[..n - 1], segment);
        assert parts[..n - 1][..from] == parts[..from];
        ExtendSplit(patterns, pattern, parts, from, segment);
      }
    } else if n > 0 && segment(pattern, parts[n - 1]) && GlobMatches(patterns, parts[..n - 1], segment) {
      ExtendSplit(patterns, pattern, parts, n - 1, segment);
    }
  }

  ghost predicate IsRow(row: array<bool>, filled: nat, patterns: seq<string>, parts: seq<string>, segment: SegmentMatch)
    reads row
    requires filled <= |parts| + 1 == row.Length
  {
    forall j :: 0 <= j < filled ==> (row[j] <==> GlobMatches(patterns, parts[..j], segment))
  }

  /** The dynamic program decides whether the path splits as the pattern asks. */
  method SearchGlobMatch(patterns: seq<string>, parts: seq<string>, segment: SegmentMatch) returns (matched: bool)
    ensures matched <==> GlobMatches(patterns, parts, segment)
  {
    hide GlobMatches;
    var previous := new bool[|parts| + 1](_ => false);
    previous[0] := true;
    forall j | 0 <= j <= |parts| ensures previous[j] <==> GlobMatches([], parts[..j], segment) { NoPatterns(parts[..j], segment); }
    assert patterns[..0] == [];
    for i := 0 to |patterns|
      invariant previous.Length == |parts| + 1 && IsRow(previous, |parts| + 1, patterns[..i], parts, segment)
    {
      var pattern := patterns[i];
      assert patterns[..i + 1] == patterns[..i] + [pattern];
      previous := NextRow(previous, patterns[..i], pattern, parts, segment);
    }
    assert patterns[..|patterns|] == patterns && parts[..|parts|] == parts;
    matched := previous[|parts|];
  }

  method NextRow(previous: array<bool>, ghost patterns: seq<string>, pattern: string, parts: seq<string>, segment: SegmentMatch)
    returns (next: array<bool>)
    requires previous.Length == |parts| + 1 && IsRow(previous, |parts| + 1, patterns, parts, segment)
    ensures next.Length == |parts| + 1 && IsRow(next, |parts| + 1, patterns + [pattern], parts, segment)
  {
    hide GlobMatches;
    next := new bool[|parts| + 1](_ => false);
    if pattern == ANY_DEPTH { next[0] := previous[0]; }
    NextEntry(patterns, pattern, parts[..0], segment);
    for j := 0 to |parts|
      invariant IsRow(next, j + 1, patterns + [pattern], parts, segment)
      invariant forall k :: j < k <= |parts| ==> !next[k]
    {
      var part := parts[j];
      assert parts[..j + 1][..j] == parts[..j] && parts[..j + 1][j] == part;
      NextEntry(patterns, pattern, parts[..j + 1], segment);
      if pattern == ANY_DEPTH {
        next[j + 1] := previous[j + 1] || next[j];
      } else {
        next[j + 1] := previous[j] && segment(pattern, part);
      }
    }
  }
}
