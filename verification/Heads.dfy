/**
 Heads: the eight bytes a key keeps after its segment's common prefix, as one big-endian word.

 The order of heads against the order of keys is the whole of the ordered index: heads never
 contradict the keys, zero padding and mixed lengths included, and what a tie of two heads says is
 decided by lengths alone where a head is a whole key.
 */
module Heads {
  import opened Bytes

  const HEAD: nat := 8

  // ---------------------------------------------------------------- big-endian words

  /** The value of big-endian bytes. */
  function BeNat(b: bytes): (v: nat)
    ensures v < Pow256(|b|)
  {
    if b == [] then 0
    else
      var p, r := Pow256(|b| - 1), BeNat(b[1..]);
      DigitBound(b[0], p, r);
      b[0] * p + r
  }

  lemma {:induction false} DigitBound(d: byte, p: nat, r: nat)
    requires r < p
    ensures 0 <= d * p + r < 256 * p
  {
    assert d * p <= 255 * p;
  }

  /** The `n` big-endian bytes of `v`. */
  function BeBytes(v: nat, n: nat): (b: bytes)
    ensures |b| == n
  {
    if n == 0 then [] else BeBytes(v / 256, n - 1) + [v % 256]
  }

  lemma {:induction false} DigitOrder(x: nat, y: nat, p: nat, r: nat, s: nat)
    requires r < p && s < p
    ensures x < y ==> x * p + r < y * p + s
    ensures x * p + r == y * p + s ==> x == y && r == s
  {
    if x < y { assert (x + 1) * p <= y * p; }
    if y < x { assert (y + 1) * p <= x * p; }
  }

  /** Words of one width are in the order of their bytes. */
  lemma {:induction false} BeOrder(a: bytes, b: bytes)
    requires |a| == |b|
    ensures BeNat(a) < BeNat(b) <==> Below(a, b)
    ensures BeNat(a) == BeNat(b) <==> a == b
  {
    if a != [] {
      var p := Pow256(|a| - 1);
      BeOrder(a[1..], b[1..]);
      DigitOrder(a[0], b[0], p, BeNat(a[1..]), BeNat(b[1..]));
      DigitOrder(b[0], a[0], p, BeNat(b[1..]), BeNat(a[1..]));
      assert a == [a[0]] + a[1..] && b == [b[0]] + b[1..];
    }
  }

  lemma {:induction false} BeNatSnoc(b: bytes, x: byte)
    ensures BeNat(b + [x]) == BeNat(b) * 256 + x
  {
    if b == [] {
      assert b + [x] == [x] && BeNat([x][1..]) == 0;
    } else {
      BeNatSnoc(b[1..], x);
      assert (b + [x])[1..] == b[1..] + [x];
      var p := Pow256(|b| - 1);
      assert b[0] * (256 * p) == b[0] * p * 256;
    }
  }

  /** A word's bytes are read back. */
  lemma {:induction false} BeRoundTrip(b: bytes)
    ensures BeBytes(BeNat(b), |b|) == b
  {
    if b != [] {
      var i, x := b[..|b| - 1], b[|b| - 1];
      assert b == i + [x];
      BeNatSnoc(i, x);
      BeRoundTrip(i);
      var v := BeNat(i);
      assert (v * 256 + x) / 256 == v && (v * 256 + x) % 256 == x;
    }
  }

  lemma {:induction false} BeWord(v: nat, n: nat)
    requires v < Pow256(n)
    ensures BeNat(BeBytes(v, n)) == v
  {
    if n > 0 {
      BeNatSnoc(BeBytes(v / 256, n - 1), v % 256);
      BeWord(v / 256, n - 1);
    }
  }

  // ---------------------------------------------------------------- prefixes

  /** `Below` past bytes two strings share. */
  lemma {:induction false} BelowPast(p: bytes, a: bytes, b: bytes)
    ensures Below(p + a, p + b) <==> Below(a, b)
  {
    if p == [] {
      assert p + a == a && p + b == b;
    } else {
      BelowPast(p[1..], a, b);
      assert (p + a)[1..] == p[1..] + a && (p + b)[1..] == p[1..] + b;
    }
  }

  /** Two strings that differ within one width are in the order they differ in. */
  lemma {:induction false} BelowWithin(a: bytes, b: bytes, s: bytes, t: bytes)
    requires |a| == |b| && a != b
    ensures Below(a + s, b + t) <==> Below(a, b)
  {
    assert a == [a[0]] + a[1..] && b == [b[0]] + b[1..];
    assert (a + s)[1..] == a[1..] + s && (b + t)[1..] == b[1..] + t;
    if a[0] == b[0] { BelowWithin(a[1..], b[1..], s, t); }
  }

  /** A proper prefix is below what it begins. */
  lemma {:induction false} PrefixBelow(a: bytes, b: bytes)
    requires a < b
    ensures Below(a, b)
  {
    if a != [] {
      assert a[1..] < b[1..];
      PrefixBelow(a[1..], b[1..]);
    }
  }

  /** Between two keys that share a prefix every key has it. */
  lemma {:induction false} PrefixBetween(p: bytes, a: bytes, k: bytes, b: bytes)
    requires p <= a && p <= b
    requires !Below(k, a) && !Below(b, k)
    ensures p <= k
  {
    if p != [] {
      assert k != [] && k[0] == p[0];
      assert !Below(k[1..], a[1..]) && !Below(b[1..], k[1..]);
      assert p[1..] <= a[1..] && p[1..] <= b[1..];
      PrefixBetween(p[1..], a[1..], k[1..], b[1..]);
      assert p == [p[0]] + p[1..] && k == [k[0]] + k[1..];
    }
  }

  // ---------------------------------------------------------------- heads

  /** The first `HEAD` bytes, padded with zeros. */
  function Padded(s: bytes): (h: bytes)
    ensures |h| == HEAD
  {
    if |s| >= HEAD then s[..HEAD] else s + seq(HEAD - |s|, i => 0)
  }

  /** A key's head: the eight bytes from `pfx` on, or from the key's end. */
  function HeadOf(key: bytes, pfx: nat): (h: nat)
    ensures h < Pow256(HEAD)
  {
    BeNat(Padded(key[if pfx <= |key| then pfx else |key|..]))
  }

  /** Byte `i` of a string padded with zeros without end. */
  function At(s: bytes, i: nat): byte { if i < |s| then s[i] else 0 }

  lemma {:induction false} PaddedAt(s: bytes, i: nat)
    requires i < HEAD
    ensures Padded(s)[i] == At(s, i)
  {}

  /** Strings in order stay so when padded to one width. */
  lemma {:induction false} PadMonotone(a: bytes, b: bytes, n: nat)
    requires !Below(b, a)
    ensures var x, y := seq(n, i requires 0 <= i => At(a, i)), seq(n, i requires 0 <= i => At(b, i));
      !Below(y, x)
    decreases n
  {
    var x, y := seq(n, i requires 0 <= i => At(a, i)), seq(n, i requires 0 <= i => At(b, i));
    if n > 0 {
      var a', b' := if a == [] then [] else a[1..], if b == [] then [] else b[1..];
      assert At(a, 0) <= At(b, 0);
      if At(a, 0) == At(b, 0) {
        assert !Below(b', a');
        PadMonotone(a', b', n - 1);
        assert x[1..] == seq(n - 1, i requires 0 <= i => At(a', i));
        assert y[1..] == seq(n - 1, i requires 0 <= i => At(b', i));
      }
    }
  }

  /** Heads never contradict the keys they are of, where both carry the prefix. */
  lemma {:induction false} HeadMonotone(p: bytes, a: bytes, b: bytes)
    requires p <= a && p <= b && !Below(b, a)
    ensures HeadOf(a, |p|) <= HeadOf(b, |p|)
  {
    var s, t := a[|p|..], b[|p|..];
    assert a == p + s && b == p + t;
    BelowPast(p, t, s);
    PadMonotone(s, t, HEAD);
    assert Padded(s) == seq(HEAD, i requires 0 <= i => At(s, i));
    assert Padded(t) == seq(HEAD, i requires 0 <= i => At(t, i));
    BeOrder(Padded(s), Padded(t));
    BeOrder(Padded(t), Padded(s));
  }

  /** Different heads say which key is below. */
  lemma {:induction false} HeadDecides(p: bytes, a: bytes, b: bytes)
    requires p <= a && p <= b && HeadOf(a, |p|) < HeadOf(b, |p|)
    ensures Below(a, b)
  {
    BelowTotal(a, b);
    if !Below(a, b) { BelowIrreflexive(a); HeadMonotone(p, b, a); }
  }

  lemma {:induction false} TieOfPadded(s: bytes, t: bytes)
    requires |s| <= HEAD && Padded(s) == Padded(t)
    ensures |t| == |s| ==> s == t
    ensures |t| < |s| ==> t < s
    ensures |t| > |s| ==> s < t
  {
    forall i: nat | i < |s| && i < |t| ensures s[i] == t[i] {
      PaddedAt(s, i);
      PaddedAt(t, i);
    }
  }

  lemma {:induction false} PrefixesPast(p: bytes, a: bytes, b: bytes)
    requires a < b
    ensures p + a < p + b
  {
    assert b == a + b[|a|..];
    assert p + b == (p + a) + b[|a|..];
  }

  /**
   A tie with a key no longer than a head, by lengths alone: equal lengths are equal
   strings, and otherwise the shorter is a proper prefix of the longer.
   */
  lemma {:induction false} TieOfWhole(p: bytes, k: bytes, q: bytes)
    requires p <= k && p <= q && |k| <= |p| + HEAD
    requires HeadOf(k, |p|) == HeadOf(q, |p|)
    ensures |q| == |k| ==> q == k
    ensures |q| < |k| ==> q < k
    ensures |q| > |k| ==> k < q
    ensures Below(k, q) <==> |q| > |k|
  {
    var s, t := k[|p|..], q[|p|..];
    assert k == p + s && q == p + t;
    BeOrder(Padded(s), Padded(t));
    TieOfPadded(s, t);
    if |q| < |k| {
      PrefixesPast(p, t, s);
      PrefixBelow(q, k);
      BelowAsymmetric(q, k);
    } else if |q| > |k| {
      PrefixesPast(p, s, t);
      PrefixBelow(k, q);
    } else {
      BelowIrreflexive(k);
    }
  }

  /** A head that is a whole key gives the key back. */
  lemma {:induction false} WholeKey(p: bytes, k: bytes)
    requires p <= k && |k| <= |p| + HEAD
    ensures p + BeBytes(HeadOf(k, |p|), HEAD)[..|k| - |p|] == k
  {
    var s := k[|p|..];
    assert k == p + s;
    BeRoundTrip(Padded(s));
    assert Padded(s)[..|s|] == s;
  }
}
