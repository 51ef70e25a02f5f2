/** The excerpt shown for a content match, from a whole line and from a window of a long one:
    `internal/app/content_search.go`, `internal/app/content_search_lines.go`. */
module ContentExcerpt {
  import opened ByteStrings
  import opened Utf8

  const EXCERPT_LIMIT := 512
  const LEAD := 24
  const UTF_MAX := 4
  const ELLIPSIS: Rune := 0x2026

  datatype Match = Match(line: nat, column: nat, length: nat, excerpt: Bytes, matchStart: nat, matchEnd: nat)

  function Max(a: int, b: int): int {
    if a < b then b else a
  }

  function Min(a: int, b: int): int {
    if a < b then a else b
  }

  // ------------------------------------------------------ what an excerpt is, in runes

  /** The last rune boundary at or before byte i. */
  function FloorRune(t: Text, i: nat, n: nat): (k: nat)
    requires n <= |t|
    ensures k <= n && At(t, k) <= i
    decreases n
  {
    if At(t, n) <= i then n else FloorRune(t, i, n - 1)
  }

  /** The excerpt starts up to 24 bytes before the match, on a rune. */
  function First(t: Text, b: nat): (k: nat)
    requires b <= |t|
    ensures k <= |t|
  {
    FloorRune(t, Max(0, At(t, b) - LEAD), |t|)
  }

  function Last(t: Text, b: nat): (k: nat)
    requires b <= |t|
    ensures k <= |t|
  {
    FloorRune(t, At(t, First(t, b)) + EXCERPT_LIMIT, |t|)
  }

  function Prefix(t: Text, b: nat): Text
    requires b <= |t|
  {
    if First(t, b) > 0 then [ELLIPSIS] else []
  }

  function Suffix(t: Text, b: nat): Text
    requires b <= |t|
  {
    if Last(t, b) < |t| then [ELLIPSIS] else []
  }

  /** Runes b to e of the line, with the line around them as far as it is shown. */
  function ExcerptOf(t: Text, number: nat, b: nat, e: nat): Match
    requires b <= e <= |t| && First(t, b) <= b <= Last(t, b)
  {
    var (s, u) := (First(t, b), Last(t, b));
    Match(number, |Utf16(t[..b])|, |Utf16(t[b..e])|, Encode(Prefix(t, b) + t[s..u] + Suffix(t, b)),
      |Utf16(Prefix(t, b) + t[s..b])|, |Utf16(Prefix(t, b) + t[s..Min(e, u)])|)
  }

  lemma {:induction false} FloorIsLast(t: Text, i: nat, n: nat, k: nat)
    requires k <= n <= |t| && At(t, k) <= i
    ensures k <= FloorRune(t, i, n)
    decreases n
  {
    if At(t, n) > i { FloorIsLast(t, i, n - 1, k); }
  }

  /** The floor is at most three bytes away. */
  lemma FloorIsNear(t: Text, i: nat)
    requires i <= |Encode(t)|
    ensures var k := FloorRune(t, i, |t|);
      At(t, k) <= i && (k < |t| ==> i < At(t, k + 1) <= At(t, k) + 4) && (k == |t| ==> i == At(t, k))
  {
    hide Encode;
    var k := FloorRune(t, i, |t|);
    assert t[..|t|] == t;
    if k < |t| {
      if At(t, k + 1) <= i { FloorIsLast(t, i, |t|, k + 1); }
      AtNext(t, k);
    }
  }

  /** The match begins inside what is shown, which holds its first rune if it has one. */
  lemma MatchIsShown(t: Text, b: nat, e: nat)
    requires b <= e <= |t|
    ensures First(t, b) <= b <= Last(t, b) && (b < e ==> b < Last(t, b))
    ensures |Encode(t[First(t, b)..Last(t, b)])| <= EXCERPT_LIMIT
    ensures At(t, b) - LEAD - 3 <= At(t, First(t, b)) <= Max(0, At(t, b) - LEAD)
  {
    hide Encode, FloorRune;
    var i := Max(0, At(t, b) - LEAD);
    var s, u := First(t, b), Last(t, b);
    Slice(t, 0, b);
    FloorIsNear(t, i);
    if s > b { AtOrdered(t, b, s); }
    FloorIsLast(t, At(t, s) + EXCERPT_LIMIT, |t|, b);
    if b < e {
      AtNext(t, b);
      FloorIsLast(t, At(t, s) + EXCERPT_LIMIT, |t|, b + 1);
    }
    Slice(t, s, u);
  }

  /** The UTF-16 range reported is the match, cut where the excerpt ends. */
  lemma RangeIsMatch(t: Text, number: nat, b: nat, e: nat)
    requires b <= e <= |t| && First(t, b) <= b <= Last(t, b)
    ensures var m := ExcerptOf(t, number, b, e);
      m.matchStart <= m.matchEnd <= |Utf16(Decode(m.excerpt))|
      && Utf16(Decode(m.excerpt))[m.matchStart..m.matchEnd] == Utf16(t[b..Min(e, Last(t, b))])
  {
    hide First, Last, Encode, Decode, Utf16, Prefix, Suffix;
    var s, u, cut := First(t, b), Last(t, b), Min(e, Last(t, b));
    DecodeEncode(Prefix(t, b) + t[s..u] + Suffix(t, b));
    ShownSplits(t, Prefix(t, b), Suffix(t, b), s, b, cut, u);
    RangeOfMiddle(Prefix(t, b) + t[s..b], t[b..cut], t[cut..u] + Suffix(t, b));
  }

  /** Runes s to u of the line, with an ellipsis wherever something is left out. */
  ghost predicate Shows(excerpt: Bytes, t: Text, s: nat, u: nat) {
    s <= u <= |t|
    && Decode(excerpt) == (if s > 0 then [ELLIPSIS] else []) + t[s..u] + (if u < |t| then [ELLIPSIS] else [])
  }

  /** The excerpt is one stretch of the line, marked where it is cut. It begins with the rune 24 bytes before the
      match, or with the line, and goes on for as many runes as fit 512 bytes. Column and length are those of the
      match in UTF-16. */
  lemma ExcerptIsAStretch(t: Text, number: nat, b: nat, e: nat) returns (s: nat, u: nat)
    requires b <= e <= |t| && First(t, b) <= b <= Last(t, b)
    ensures var m := ExcerptOf(t, number, b, e);
      && Shows(m.excerpt, t, s, u) && m.line == number
      && m.column == |Utf16(t[..b])| && m.length == |Utf16(t[b..e])|
      && At(t, s) <= Max(0, At(t, b) - LEAD) && (s < |t| ==> Max(0, At(t, b) - LEAD) < At(t, s + 1))
      && At(t, u) <= At(t, s) + EXCERPT_LIMIT && (u < |t| ==> At(t, s) + EXCERPT_LIMIT < At(t, u + 1))
  {
    hide Encode, Decode, Utf16, FloorRune;
    s, u := First(t, b), Last(t, b);
    DecodeEncode(Prefix(t, b) + t[s..u] + Suffix(t, b));
    FloorOf(t, Max(0, At(t, b) - LEAD));
    FloorOf(t, At(t, s) + EXCERPT_LIMIT);
  }

  lemma FloorOf(t: Text, i: nat)
    ensures var k := FloorRune(t, i, |t|); At(t, k) <= i && (k < |t| ==> i < At(t, k + 1))
  {
    hide Encode;
    var k := FloorRune(t, i, |t|);
    if k < |t| && At(t, k + 1) <= i { FloorIsLast(t, i, |t|, k + 1); }
  }

  lemma ShownSplits(t: Text, prefix: Text, suffix: Text, s: nat, b: nat, cut: nat, u: nat)
    requires s <= b <= cut <= u <= |t|
    ensures prefix + t[s..u] + suffix == prefix + t[s..b] + t[b..cut] + (t[cut..u] + suffix)
    ensures prefix + t[s..cut] == prefix + t[s..b] + t[b..cut]
  {
    assert t[s..b] + t[b..cut] == t[s..cut] && t[s..cut] + t[cut..u] == t[s..u];
  }

  lemma RangeOfMiddle(before: Text, found: Text, rest: Text)
    ensures var all := Utf16(before + found + rest);
      |Utf16(before)| <= |Utf16(before + found)| <= |all|
      && all[|Utf16(before)|..|Utf16(before + found)|] == Utf16(found)
  {
    hide Utf16;
    Utf16Concat(before + found, rest);
    Utf16Concat(before, found);
  }

  // ------------------------------------------------------ the code

  method Utf16Length(value: Bytes) returns (length: nat)
    ensures length == |Utf16(Decode(value))|
  {
    length := 0;
    var rest := value;
    while rest != []
      invariant length + |Utf16(Decode(rest))| == |Utf16(Decode(value))|
      decreases |rest|
    {
      var (r, size) := DecodeRune(rest);
      length := length + 1;
      if r > 0xffff { length := length + 1; }
      rest := rest[size..];
    }
  }

  /** Bytes of a rune's inside, walked back, lead to its start. */
  lemma StepBack(t: Text, i: nat)
    requires i < |Encode(t)|
    ensures RuneStart(Encode(t)[i]) <==> i == At(t, FloorRune(t, i, |t|))
    ensures !RuneStart(Encode(t)[i]) ==> i > 0 && FloorRune(t, i - 1, |t|) == FloorRune(t, i, |t|)
  {
    assert t[..|t|] == t;
    hide Encode, FloorRune, RuneStart;
    FloorIsNear(t, i);
    var k := FloorRune(t, i, |t|);
    StartsAreStarts(t, k, i);
    if i != At(t, k) {
      FloorIsLast(t, i - 1, |t|, k);
      FloorIsLast(t, i, |t|, FloorRune(t, i - 1, |t|));
    }
  }

  lemma EndIsBoundary(t: Text)
    ensures At(t, |t|) == |Encode(t)| && FloorRune(t, |Encode(t)|, |t|) == |t| && At(t, 0) == 0
  {
    assert t[..|t|] == t;
  }

  const ELLIPSIS_BYTES: Bytes := [0xE2, 0x80, 0xA6]

  lemma EllipsisBytes()
    ensures Encode([ELLIPSIS]) == ELLIPSIS_BYTES && Encode([]) == []
  {
    assert Encode([ELLIPSIS]) == EncodeRune(ELLIPSIS) + Encode([]);
  }

  /** utf8.RuneStart back to a boundary of the line, inside a window of it. */
  method WalkBack(data: Bytes, position: nat, ghost t: Text, ghost windowStart: nat) returns (start: nat)
    requires windowStart + |data| <= |Encode(t)| && data == Encode(t)[windowStart..windowStart + |data|]
    requires position <= |data| && (position == |data| ==> windowStart + position == |Encode(t)|)
    requires windowStart <= At(t, FloorRune(t, windowStart + position, |t|))
    ensures start <= position && windowStart + start == At(t, FloorRune(t, windowStart + position, |t|))
  {
    EndIsBoundary(t);
    hide Encode, FloorRune, At, RuneStart;
    start := position;
    while 0 < start < |data| && !RuneStart(data[start])
      invariant start <= position
      invariant start == |data| ==> windowStart + start == |Encode(t)|
      invariant FloorRune(t, windowStart + start, |t|) == FloorRune(t, windowStart + position, |t|)
      decreases start
    {
      StepBack(t, windowStart + start);
      start := start - 1;
    }
    if start < |data| { StepBack(t, windowStart + start); }
  }

  lemma Boundaries(t: Text, k: nat)
    requires k <= |t|
    ensures At(t, k) <= |Encode(t)| && (At(t, k) == 0 <==> k == 0) && (At(t, k) == |Encode(t)| <==> k == |t|)
  {
    EndIsBoundary(t);
    AtOrdered(t, 0, k);
    AtOrdered(t, k, |t|);
  }

  lemma FloorBeyond(t: Text, i: nat)
    requires i >= |Encode(t)|
    ensures FloorRune(t, i, |t|) == |t|
  {
    EndIsBoundary(t);
  }

  lemma LastIsBeyond(t: Text, b: nat)
    requires b <= |t|
    ensures First(t, b) <= b <= Last(t, b) && At(t, First(t, b)) <= At(t, b) <= At(t, Last(t, b))
  {
    MatchIsShown(t, b, b);
    AtOrdered(t, First(t, b), b);
    AtOrdered(t, b, Last(t, b));
  }

  /** Where the bytes of an excerpt start and stop. */
  lemma ExcerptBounds(t: Text, b: nat, e: nat)
    requires b <= e <= |t|
    ensures var (s, u) := (First(t, b), Last(t, b));
      && s <= b <= u && At(t, s) <= At(t, b) <= At(t, u) <= |Encode(t)| && At(t, b) <= At(t, e) <= |Encode(t)|
      && Min(At(t, e), At(t, u)) == At(t, Min(e, u))
  {
    LastIsBeyond(t, b);
    hide Encode, At, First, Last;
    var u := Last(t, b);
    AtOrdered(t, b, e);
    if e <= u { AtOrdered(t, e, u); } else { AtOrdered(t, u, e); }
    Boundaries(t, u);
    Boundaries(t, e);
  }

  lemma StopOfExcerpt(t: Text, b: nat)
    requires b <= |t|
    ensures At(t, Last(t, b)) == At(t, FloorRune(t, Min(|Encode(t)|, At(t, First(t, b)) + EXCERPT_LIMIT), |t|))
  {
    hide Encode, At, FloorRune, First;
    var i := At(t, First(t, b)) + EXCERPT_LIMIT;
    if i >= |Encode(t)| {
      FloorBeyond(t, i);
      FloorBeyond(t, |Encode(t)|);
    }
  }

  lemma Markers(t: Text, b: nat)
    requires b <= |t|
    ensures Encode(Prefix(t, b)) == if At(t, First(t, b)) > 0 then ELLIPSIS_BYTES else []
    ensures Encode(Suffix(t, b)) == if At(t, Last(t, b)) < |Encode(t)| then ELLIPSIS_BYTES else []
  {
    EllipsisBytes();
    hide Encode, At, First, Last;
    Boundaries(t, First(t, b));
    Boundaries(t, Last(t, b));
  }

  /** A marker in front of a stretch of the line decodes to both. */
  lemma MarkedStretch(t: Text, mark: Text, j: nat, k: nat)
    requires j <= k <= |t|
    ensures At(t, j) <= At(t, k) <= |Encode(t)|
    ensures Encode(mark) + Encode(t)[At(t, j)..At(t, k)] == Encode(mark + t[j..k])
    ensures Decode(Encode(mark) + Encode(t)[At(t, j)..At(t, k)]) == mark + t[j..k]
    ensures Decode(Encode(t)[At(t, j)..At(t, k)]) == t[j..k]
  {
    hide Encode, Decode, At;
    Slice(t, j, k);
    EncodeConcat(mark, t[j..k]);
    DecodeEncode(mark + t[j..k]);
    DecodeEncode(t[j..k]);
  }

  function Mark(shown: bool): Bytes {
    if shown then ELLIPSIS_BYTES else []
  }

  /** What the code puts together is the excerpt, given where it starts and stops. */
  lemma AssembledText(t: Text, number: nat, b: nat, e: nat, start: nat, stop: nat)
    requires b <= e <= |t| && First(t, b) <= b <= Last(t, b)
    requires start == At(t, First(t, b)) && stop == At(t, Last(t, b))
    ensures start <= stop <= |Encode(t)|
    ensures ExcerptOf(t, number, b, e).excerpt == Mark(start > 0) + Encode(t)[start..stop] + Mark(stop < |Encode(t)|)
  {
    Markers(t, b);
    hide Encode, At, First, Last, Prefix, Suffix;
    MarkedStretch(t, Prefix(t, b), First(t, b), Last(t, b));
    EncodeConcat(Prefix(t, b) + t[First(t, b)..Last(t, b)], Suffix(t, b));
  }

  lemma AssembledColumns(t: Text, number: nat, b: nat, e: nat, begin: nat, end: nat)
    requires b <= e <= |t| && First(t, b) <= b <= Last(t, b) && begin == At(t, b) && end == At(t, e)
    ensures begin <= end <= |Encode(t)|
    ensures ExcerptOf(t, number, b, e).column == |Utf16(Decode(Encode(t)[..begin]))|
    ensures ExcerptOf(t, number, b, e).length == |Utf16(Decode(Encode(t)[begin..end]))|
  {
    EndIsBoundary(t);
    hide Encode, Decode, Utf16, At, First, Last, Prefix, Suffix;
    Stretch(t, [], 0, b);
    Stretch(t, [], b, e);
    assert Encode(t)[..begin] == Encode(t)[0..begin] && t[..b] == t[0..b];
  }

  lemma AssembledMarks(t: Text, number: nat, b: nat, e: nat, start: nat, begin: nat, cut: nat)
    requires b <= e <= |t| && First(t, b) <= b <= Last(t, b)
    requires start == At(t, First(t, b)) && begin == At(t, b) && cut == At(t, Min(e, Last(t, b)))
    ensures start <= begin <= cut <= |Encode(t)|
    ensures var (m, prefix, line) := (ExcerptOf(t, number, b, e), Mark(start > 0), Encode(t));
      && m.matchStart == |Utf16(Decode(prefix + line[start..begin]))|
      && m.matchEnd == |Utf16(Decode(prefix + line[start..cut]))|
      && m.matchStart == |Utf16(Decode(prefix))| + |Utf16(Decode(line[start..begin]))|
      && m.matchEnd == |Utf16(Decode(prefix))| + |Utf16(Decode(line[start..cut]))|
  {
    Markers(t, b);
    hide Encode, Decode, Utf16, At, First, Last, Prefix, Suffix;
    AtOrdered(t, b, Min(e, Last(t, b)));
    Stretch(t, Prefix(t, b), First(t, b), b);
    Stretch(t, Prefix(t, b), First(t, b), Min(e, Last(t, b)));
  }

  /** UTF-16 lengths of a stretch of the line, alone and behind a marker. */
  lemma Stretch(t: Text, mark: Text, j: nat, k: nat)
    requires j <= k <= |t|
    ensures At(t, j) <= At(t, k) <= |Encode(t)|
    ensures Utf16(Decode(Encode(t)[At(t, j)..At(t, k)])) == Utf16(t[j..k])
    ensures Utf16(Decode(Encode(mark) + Encode(t)[At(t, j)..At(t, k)])) == Utf16(mark + t[j..k])
    ensures |Utf16(mark + t[j..k])| == |Utf16(Decode(Encode(mark)))| + |Utf16(t[j..k])|
  {
    hide Encode, Decode, Utf16, At;
    MarkedStretch(t, mark, j, k);
    DecodeEncode(mark);
    Utf16Concat(mark, t[j..k]);
  }

  method ContentSearchExcerpt(line: Bytes, number: nat, begin: nat, end: nat, ghost t: Text, ghost b: nat, ghost e: nat)
    returns (m: Match)
    requires line == Encode(t) && b <= e <= |t| && begin == At(t, b) && end == At(t, e)
    ensures First(t, b) <= b <= Last(t, b) && m == ExcerptOf(t, number, b, e)
  {
    hide Encode, Decode, Utf16, At, FloorRune, First, Last, ExcerptOf;
    var start, stop := ExcerptRange(line, begin, t, b);
    ExcerptBounds(t, b, e);
    AssembledText(t, number, b, e, start, stop);
    AssembledColumns(t, number, b, e, begin, end);
    AssembledMarks(t, number, b, e, start, begin, Min(end, stop));
    var prefix, suffix := [], [];
    if start > 0 { prefix := ELLIPSIS_BYTES; }
    if stop < |line| { suffix := ELLIPSIS_BYTES; }
    var column := Utf16Length(line[..begin]);
    var length := Utf16Length(line[begin..end]);
    var matchStart := Utf16Length(prefix + line[start..begin]);
    var matchEnd := Utf16Length(prefix + line[start..Min(end, stop)]);
    m := Match(number, column, length, prefix + line[start..stop] + suffix, matchStart, matchEnd);
    ColumnsAgree(t, number, b, e);
  }

  /** Where the excerpt starts and stops in a whole line. */
  method ExcerptRange(line: Bytes, begin: nat, ghost t: Text, ghost b: nat) returns (start: nat, stop: nat)
    requires line == Encode(t) && b <= |t| && begin == At(t, b)
    ensures start == At(t, First(t, b)) && stop == At(t, Last(t, b))
  {
    EndIsBoundary(t);
    StartOfExcerpt(t, b);
    StopOfExcerpt(t, b);
    hide Encode, At, FloorRune, First, Last;
    assert line == line[0..|line|];
    start := WalkBack(line, Max(0, begin - LEAD), t, 0);
    stop := WalkBack(line, Min(|line|, start + EXCERPT_LIMIT), t, 0);
  }

  lemma StartOfExcerpt(t: Text, b: nat)
    requires b <= |t|
    ensures First(t, b) == FloorRune(t, Max(0, At(t, b) - LEAD), |t|)
    ensures Max(0, At(t, b) - LEAD) <= |Encode(t)| && (Max(0, At(t, b) - LEAD) == |Encode(t)| ==> |Encode(t)| == 0)
  {
    Boundaries(t, b);
  }

  /** The same excerpt from a window of at most 520 bytes of the file, which holds the line from `start` on. */
  method LongContentSearchExcerpt(file: Bytes, start: nat, length: nat, begin: nat, end: nat, number: nat, column: nat,
      matchLength: nat, ghost t: Text, ghost b: nat, ghost e: nat) returns (m: Match)
    requires start + length <= |file| && file[start..start + length] == Encode(t)
    requires b <= e <= |t| && begin == At(t, b) && end == At(t, e)
    requires column == |Utf16(t[..b])| && matchLength == |Utf16(t[b..e])|
    ensures First(t, b) <= b <= Last(t, b) && m == ExcerptOf(t, number, b, e)
  {
    hide Encode, Decode, Utf16, At, FloorRune, First, Last, ExcerptOf, Mark;
    ExcerptBounds(t, b, e);
    var windowStart := Max(0, begin - LEAD - UTF_MAX);
    var size := Min(length - windowStart, EXCERPT_LIMIT + 2 * UTF_MAX);
    var data := file[start + windowStart..start + windowStart + size];
    SliceOfSlice(file, start, length, windowStart, windowStart + size);
    var first, last := WindowRange(data, windowStart, length, begin, t, b);
    WindowAssembles(t, number, b, e, data, windowStart, first, last, begin, end);
    var prefix, suffix := Mark(windowStart + first > 0), Mark(windowStart + last < length);
    var localBegin := begin - windowStart;
    var localEnd := Min(end - windowStart, last);
    var marked := Utf16Length(prefix);
    var before := Utf16Length(data[first..localBegin]);
    var through := Utf16Length(data[first..localEnd]);
    m := Match(number, column, matchLength, prefix + data[first..last] + suffix, marked + before, marked + through);
    ColumnsAgree(t, number, b, e);
  }

  /** The pieces cut from the window are the pieces of the excerpt. */
  lemma WindowAssembles(t: Text, number: nat, b: nat, e: nat, data: Bytes, windowStart: nat, first: nat, last: nat,
      begin: nat, end: nat)
    requires b <= e <= |t| && First(t, b) <= b <= Last(t, b) && begin == At(t, b) && end == At(t, e)
    requires windowStart + |data| <= |Encode(t)| && data == Encode(t)[windowStart..windowStart + |data|]
    requires windowStart + first == At(t, First(t, b)) && windowStart + last == At(t, Last(t, b)) && last <= |data|
    ensures windowStart <= begin && first <= begin - windowStart <= Min(end - windowStart, last)
    ensures var (m, prefix) := (ExcerptOf(t, number, b, e), Mark(windowStart + first > 0));
      && m.excerpt == prefix + data[first..last] + Mark(windowStart + last < |Encode(t)|)
      && m.matchStart == |Utf16(Decode(prefix))| + |Utf16(Decode(data[first..begin - windowStart]))|
      && m.matchEnd == |Utf16(Decode(prefix))| + |Utf16(Decode(data[first..Min(end - windowStart, last)]))|
  {
    hide Encode, Decode, Utf16, At, FloorRune, First, Last, ExcerptOf, Mark;
    ExcerptBounds(t, b, e);
    AssembledText(t, number, b, e, windowStart + first, windowStart + last);
    AssembledMarks(t, number, b, e, windowStart + first, begin, Min(end, windowStart + last));
    SliceOfSlice(Encode(t), windowStart, |data|, first, begin - windowStart);
    SliceOfSlice(Encode(t), windowStart, |data|, first, Min(end - windowStart, last));
    SliceOfSlice(Encode(t), windowStart, |data|, first, last);
  }

  lemma ColumnsAgree(t: Text, number: nat, b: nat, e: nat)
    requires b <= e <= |t| && First(t, b) <= b <= Last(t, b)
    ensures ExcerptOf(t, number, b, e).line == number && ExcerptOf(t, number, b, e).column == |Utf16(t[..b])|
    ensures ExcerptOf(t, number, b, e).length == |Utf16(t[b..e])|
  {
  }

  /** Where the excerpt starts and stops in the window. */
  method WindowRange(data: Bytes, windowStart: nat, length: nat, begin: nat, ghost t: Text, ghost b: nat)
    returns (first: nat, last: nat)
    requires b <= |t| && begin == At(t, b) && length == |Encode(t)| && windowStart == Max(0, begin - LEAD - UTF_MAX)
    requires windowStart + |data| == Min(length, windowStart + EXCERPT_LIMIT + 2 * UTF_MAX)
    requires data == Encode(t)[windowStart..windowStart + |data|]
    ensures windowStart + first == At(t, First(t, b)) && windowStart + last == At(t, Last(t, b)) && last <= |data|
  {
    StartOfExcerpt(t, b);
    StopOfExcerpt(t, b);
    MatchIsShown(t, b, b);
    Boundaries(t, b);
    LastIsBeyond(t, b);
    hide Encode, At, FloorRune, First, Last;
    first := WalkBack(data, Max(0, begin - LEAD) - windowStart, t, windowStart);
    last := WalkBack(data, Min(|data|, first + EXCERPT_LIMIT), t, windowStart);
  }

  lemma SliceOfSlice(line: Bytes, from: nat, size: nat, i: nat, j: nat)
    requires from + size <= |line| && i <= j <= size
    ensures line[from..from + size][i..j] == line[from + i..from + j]
  {
    var window := line[from..from + size];
    var a, b := window[i..j], line[from + i..from + j];
    forall k | 0 <= k < |a| ensures a[k] == b[k] { assert a[k] == window[i + k]; }
  }
}
