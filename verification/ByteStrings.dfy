/** Go strings as byte sequences, in their `<` order. */
module ByteStrings {
  import opened Ordering

  type Byte = b: int | 0 <= b < 256
  type Bytes = seq<Byte>

  const SLASH: Byte := 47

  predicate Less(a: Bytes, b: Bytes) {
    b != [] && (a == [] || a[0] < b[0] || (a[0] == b[0] && Less(a[1..], b[1..])))
  }

  lemma {:induction false} LessIsAsymmetric(a: Bytes, b: Bytes)
    requires Less(a, b)
    ensures a != b && !Less(b, a)
  {
    if a != [] && a[0] == b[0] { LessIsAsymmetric(a[1..], b[1..]); }
  }

  lemma {:induction false} LessIsIrreflexive(a: Bytes)
    ensures !Less(a, a)
  {
    if a != [] { LessIsIrreflexive(a[1..]); }
  }

  lemma {:induction false} LessIsTotal(a: Bytes, b: Bytes)
    ensures a == b || Less(a, b) || Less(b, a)
  {
    if a != [] && b != [] {
      LessIsTotal(a[1..], b[1..]);
      assert a == [a[0]] + a[1..] && b == [b[0]] + b[1..];
    }
  }

  lemma {:induction false} LessIsTransitive(a: Bytes, b: Bytes, c: Bytes)
    requires Less(a, b) && Less(b, c)
    ensures Less(a, c)
  {
    if a != [] && a[0] == b[0] == c[0] { LessIsTransitive(a[1..], b[1..], c[1..]); }
  }

  lemma LessIsNegativelyTransitive(a: Bytes, b: Bytes, c: Bytes)
    requires Less(a, c)
    ensures Less(a, b) || Less(b, c)
  {
    LessIsTotal(a, b);
    if Less(b, a) { LessIsTransitive(b, a, c); }
  }

  lemma LessOrders(items: set<Bytes>)
    ensures TotalOrder(Less, items)
  {
    forall x, y | x in items && y in items && Less(x, y) ensures !Less(y, x) { LessIsAsymmetric(x, y); }
    forall x, y, z | x in items && y in items && z in items && Less(x, z) ensures Less(x, y) || Less(y, z) {
      LessIsNegativelyTransitive(x, y, z);
    }
    forall x, y | x in items && y in items && x != y ensures Less(x, y) || Less(y, x) { LessIsTotal(x, y); }
  }

  lemma SameHead(c: Byte, a: Bytes, b: Bytes)
    ensures Less([c] + a, [c] + b) <==> Less(a, b)
  {
    assert ([c] + a)[1..] == a && ([c] + b)[1..] == b;
  }

  lemma {:induction false} CommonPrefix(p: Bytes, a: Bytes, b: Bytes)
    ensures Less(p + a, p + b) <==> Less(a, b)
  {
    hide Less;
    if p == [] {
      assert p + a == a && p + b == b;
    } else {
      var rest := p[1..];
      CommonPrefix(rest, a, b);
      SameHead(p[0], rest + a, rest + b);
      assert p + a == [p[0]] + (rest + a) && p + b == [p[0]] + (rest + b);
    }
  }

  lemma PrefixIsLess(p: Bytes, a: Bytes)
    requires p <= a && p != a
    ensures Less(p, a)
  {
    CommonPrefix(p, [], a[|p|..]);
    assert p + [] == p && p + a[|p|..] == a;
  }

  /** Whatever lies between a prefix and one of its extensions has that prefix too:
      `"a/" <= x < "a/b"` puts x under `a`, whereas `"a.txt"` precedes the whole of `"a/"`. */
  lemma {:induction false} BetweenHasPrefix(p: Bytes, x: Bytes, q: Bytes)
    requires p <= q && !Less(x, p) && Less(x, q)
    ensures p <= x
  {
    if p != [] {
      if x != [] {
        assert p[1..] <= q[1..];
        BetweenHasPrefix(p[1..], x[1..], q[1..]);
        assert x == [x[0]] + x[1..] && p == [p[0]] + p[1..];
      }
    }
  }

  /** `c` followed by a NUL comes straight after `c` among strings that hold no NUL. */
  lemma {:induction false} NulSuccessor(c: Bytes, x: Bytes)
    requires Less(c, x) && 0 !in x
    ensures Less(c + [0], x)
  {
    if c != [] {
      if c[0] == x[0] {
        assert forall i :: 0 <= i < |x[1..]| ==> x[1..][i] in x;
        NulSuccessor(c[1..], x[1..]);
      }
      assert (c + [0])[1..] == c[1..] + [0];
    } else {
      assert x[0] in x;
    }
  }
}
