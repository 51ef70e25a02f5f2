/** UTF-8 (section 3 of RFC 3629) as Go encodes and decodes it, and UTF-16 (section 2.1 of RFC 2781). */
module Utf8 {
  import opened ByteStrings

  /** Unicode scalar values. */
  type Rune = r: int | 0 <= r < 0x110000 && !(0xD800 <= r < 0xE000)
  type Text = seq<Rune>

  const REPLACEMENT: Rune := 0xFFFD

  function RuneLength(r: Rune): nat {
    if r < 0x80 then 1 else if r < 0x800 then 2 else if r < 0x10000 then 3 else 4
  }

  function EncodeRune(r: Rune): (b: Bytes)
    ensures |b| == RuneLength(r)
  {
    if r < 0x80 then [r]
    else if r < 0x800 then [0xC0 + r / 64, 0x80 + r % 64]
    else if r < 0x10000 then [0xE0 + r / 4096, 0x80 + r / 64 % 64, 0x80 + r % 64]
    else [0xF0 + r / 262144, 0x80 + r / 4096 % 64, 0x80 + r / 64 % 64, 0x80 + r % 64]
  }

  predicate Continues(b: Byte) {
    0x80 <= b < 0xC0
  }

  /** utf8.RuneStart */
  predicate RuneStart(b: Byte) {
    !Continues(b)
  }

  /** utf8.DecodeRune: the first rune and its length, or the replacement rune and 1 for a bad sequence. */
  function DecodeRune(s: Bytes): (d: (Rune, nat))
    requires s != []
    ensures 1 <= d.1 <= |s|
  {
    var bad: (Rune, nat) := (REPLACEMENT, 1);
    var n := if s[0] < 0x80 then 1 else if 0xC2 <= s[0] < 0xE0 then 2 else if 0xE0 <= s[0] < 0xF0 then 3
             else if 0xF0 <= s[0] < 0xF5 then 4 else 0;
    if n == 1 then (s[0], 1)
    else if n == 0 || |s| < n || exists i :: 1 <= i < n && !Continues(s[i]) then bad
    else if n == 2 then ((s[0] as int - 0xC0) * 64 + (s[1] as int - 0x80), 2)
    else if n == 3 then
      if (s[0] == 0xE0 && s[1] < 0xA0) || (s[0] == 0xED && s[1] >= 0xA0) then bad
      else ((s[0] as int - 0xE0) * 4096 + (s[1] as int - 0x80) * 64 + (s[2] as int - 0x80), 3)
    else
      if (s[0] == 0xF0 && s[1] < 0x90) || (s[0] == 0xF4 && s[1] >= 0x90) then bad
      else ((s[0] as int - 0xF0) * 262144 + (s[1] as int - 0x80) * 4096 + (s[2] as int - 0x80) * 64
            + (s[3] as int - 0x80), 4)
  }

  function Encode(t: Text): Bytes {
    if t == [] then [] else EncodeRune(t[0]) + Encode(t[1..])
  }

  /** What `for _, r := range value` visits. */
  function Decode(s: Bytes): Text
    decreases |s|
  {
    if s == [] then [] else [DecodeRune(s).0] + Decode(s[DecodeRune(s).1..])
  }

  lemma DecodeEncodedRune(r: Rune, rest: Bytes)
    ensures DecodeRune(EncodeRune(r) + rest) == (r, RuneLength(r))
  {
    var s := EncodeRune(r) + rest;
    assert forall i :: 0 <= i < RuneLength(r) ==> s[i] == EncodeRune(r)[i];
    Digits(r);
  }

  lemma Digits(r: Rune)
    ensures r == r / 64 * 64 + r % 64
    ensures r == r / 4096 * 4096 + r / 64 % 64 * 64 + r % 64
    ensures r == r / 262144 * 262144 + r / 4096 % 64 * 4096 + r / 64 % 64 * 64 + r % 64
  {
  }

  /** Decoding undoes encoding. */
  lemma {:induction false} DecodeEncode(t: Text)
    ensures Decode(Encode(t)) == t
  {
    if t != [] {
      var s := Encode(t);
      DecodeEncodedRune(t[0], Encode(t[1..]));
      assert s[RuneLength(t[0])..] == Encode(t[1..]);
      DecodeEncode(t[1..]);
    }
  }

  lemma {:induction false} EncodeConcat(a: Text, b: Text)
    ensures Encode(a + b) == Encode(a) + Encode(b)
  {
    if a == [] {
      assert a + b == b;
    } else {
      EncodeConcat(a[1..], b);
      assert (a + b)[1..] == a[1..] + b;
      assert EncodeRune(a[0]) + (Encode(a[1..]) + Encode(b)) == EncodeRune(a[0]) + Encode(a[1..]) + Encode(b);
    }
  }

  /** Where the k-th rune starts. */
  function At(t: Text, k: nat): nat
    requires k <= |t|
  {
    |Encode(t[..k])|
  }

  lemma AtNext(t: Text, k: nat)
    requires k < |t|
    ensures At(t, k + 1) == At(t, k) + RuneLength(t[k])
  {
    assert t[..k + 1] == t[..k] + [t[k]];
    EncodeConcat(t[..k], [t[k]]);
    assert Encode([t[k]]) == EncodeRune(t[k]) + Encode([]);
  }

  lemma {:induction false} AtOrdered(t: Text, j: nat, k: nat)
    requires j <= k <= |t|
    ensures At(t, j) <= At(t, k) && (j < k ==> At(t, j) < At(t, k))
  {
    if j < k {
      AtOrdered(t, j, k - 1);
      AtNext(t, k - 1);
    }
  }

  lemma Middle(a: Bytes, b: Bytes, c: Bytes)
    ensures (a + b + c)[|a|..|a| + |b|] == b
  {
  }

  /** A stretch of whole runes. */
  lemma Slice(t: Text, j: nat, k: nat)
    requires j <= k <= |t|
    ensures At(t, j) <= At(t, k) <= |Encode(t)| && Encode(t)[At(t, j)..At(t, k)] == Encode(t[j..k])
  {
    hide Encode;
    EncodeConcat(t[..j], t[j..k]);
    EncodeConcat(t[..k], t[k..]);
    assert t[..j] + t[j..k] == t[..k] && t[..k] + t[k..] == t;
    Middle(Encode(t[..j]), Encode(t[j..k]), Encode(t[k..]));
  }

  lemma EncodedStarts(r: Rune)
    ensures RuneStart(EncodeRune(r)[0]) && forall i :: 0 < i < RuneLength(r) ==> !RuneStart(EncodeRune(r)[i])
  {
  }

  lemma ByteOfRune(t: Text, k: nat, i: nat)
    requires k < |t| && i < RuneLength(t[k])
    ensures At(t, k) + i < |Encode(t)| && Encode(t)[At(t, k) + i] == EncodeRune(t[k])[i]
  {
    Slice(t, k, k + 1);
    AtNext(t, k);
    assert t[k..k + 1] == [t[k]] && Encode([t[k]]) == EncodeRune(t[k]) + Encode([]);
    assert Encode(t)[At(t, k)..At(t, k + 1)][i] == Encode(t)[At(t, k) + i];
  }

  /** In encoded text the rune starts are exactly the starts of its runes. */
  lemma StartsAreStarts(t: Text, k: nat, i: nat)
    requires k < |t| && At(t, k) <= i < At(t, k + 1)
    ensures i < |Encode(t)| && (RuneStart(Encode(t)[i]) <==> i == At(t, k))
  {
    AtNext(t, k);
    ByteOfRune(t, k, i - At(t, k));
    EncodedStarts(t[k]);
  }

  // ------------------------------------------------------ UTF-16

  function Utf16Rune(r: Rune): seq<int> {
    if r <= 0xFFFF then [r] else [0xD800 + (r - 0x10000) / 0x400, 0xDC00 + (r - 0x10000) % 0x400]
  }

  function Utf16(t: Text): seq<int> {
    if t == [] then [] else Utf16Rune(t[0]) + Utf16(t[1..])
  }

  lemma {:induction false} Utf16Concat(a: Text, b: Text)
    ensures Utf16(a + b) == Utf16(a) + Utf16(b)
  {
    if a == [] {
      assert a + b == b;
    } else {
      Utf16Concat(a[1..], b);
      assert (a + b)[1..] == a[1..] + b;
      assert Utf16Rune(a[0]) + (Utf16(a[1..]) + Utf16(b)) == Utf16Rune(a[0]) + Utf16(a[1..]) + Utf16(b);
    }
  }
}
