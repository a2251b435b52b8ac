/** Bytes, keys and the fixed-width little-endian words every on-disk structure is made of. */
module Bytes {

  type byte = x: int | 0 <= x < 256

  type bytes = seq<byte>

  function Min(a: nat, b: nat): nat { if a < b then a else b }

  function Max(a: nat, b: nat): nat { if a > b then a else b }

  // ---------------------------------------------------------------- helpers

  function Pow2(k: nat): (p: nat)
    ensures p > 0
  {
    if k == 0 then 1 else 2 * Pow2(k - 1)
  }

  lemma {:induction false} PowSum(a: nat, b: nat)
    ensures Pow2(a + b) == Pow2(a) * Pow2(b)
  {
    if a > 0 {
      PowSum(a - 1, b);
      var x, y := Pow2(a - 1), Pow2(b);
      assert 2 * (x * y) == 2 * x * y;
    }
  }

  lemma {:induction false} Reassociate(a: bytes, b: bytes, c: bytes)
    ensures a + (b + c) == a + b + c
  {}

  // ---------------------------------------------------------------- order

  /** `a < b` for byte strings: the first differing byte decides, a proper prefix is below. */
  predicate Below(a: bytes, b: bytes) {
    if b == [] then false
    else if a == [] then true
    else a[0] < b[0] || (a[0] == b[0] && Below(a[1..], b[1..]))
  }

  lemma {:induction false} BelowIrreflexive(a: bytes)
    ensures !Below(a, a)
  {
    if a != [] { BelowIrreflexive(a[1..]); }
  }

  lemma {:induction false} BelowTransitive(a: bytes, b: bytes, c: bytes)
    requires Below(a, b) && Below(b, c)
    ensures Below(a, c)
  {
    if a != [] && a[0] == b[0] == c[0] {
      BelowTransitive(a[1..], b[1..], c[1..]);
    }
  }

  lemma {:induction false} BelowTotal(a: bytes, b: bytes)
    ensures Below(a, b) || a == b || Below(b, a)
  {
    if a != [] && b != [] && a[0] == b[0] {
      BelowTotal(a[1..], b[1..]);
      assert a == [a[0]] + a[1..] && b == [b[0]] + b[1..];
    }
  }

  lemma {:induction false} BelowAsymmetric(a: bytes, b: bytes)
    requires Below(a, b)
    ensures !Below(b, a) && a != b
  {
    if Below(b, a) { BelowTransitive(a, b, a); }
    BelowIrreflexive(a);
  }

  /** `b <= c < d` and `a < b` put `a` below `d`: the two mixed forms of transitivity. */
  lemma {:induction false} BelowThrough(a: bytes, b: bytes, c: bytes)
    ensures Below(a, b) && !Below(c, b) ==> Below(a, c)
    ensures !Below(b, a) && Below(b, c) ==> Below(a, c)
  {
    BelowTotal(b, c);
    BelowTotal(a, b);
    if Below(a, b) && Below(b, c) { BelowTransitive(a, b, c); }
  }

  /** Keys in strictly ascending order. */
  ghost predicate Ascending(keys: seq<bytes>) {
    forall i, j :: 0 <= i < j < |keys| ==> Below(keys[i], keys[j])
  }

  /** `r` is the first rank from `lo` up to `hi` whose key is not below `q`, or `hi`. */
  ghost predicate LowerBound(keys: seq<bytes>, q: bytes, lo: nat, hi: nat, r: nat) {
    && lo <= r <= hi <= |keys|
    && (forall i :: lo <= i < r ==> Below(keys[i], q))
    && (forall i :: r <= i < hi ==> !Below(keys[i], q))
  }

  // ---------------------------------------------------------------- words

  /** The value of little-endian bytes. */
  function LeNat(b: bytes): nat {
    if b == [] then 0 else b[0] + 256 * LeNat(b[1..])
  }

  /** The low `n` little-endian bytes of `v`. */
  function LeBytes(v: nat, n: nat): (b: bytes)
    ensures |b| == n
    decreases n, v
  {
    if n == 0 then [] else [v % 256] + LeBytes(v / 256, n - 1)
  }

  function Pow256(n: nat): (p: nat)
    ensures p > 0
  {
    if n == 0 then 1 else 256 * Pow256(n - 1)
  }

  const U16: nat := 0x1_0000
  const U32: nat := 0x1_0000_0000
  const U64: nat := 0x1_0000_0000_0000_0000

  lemma {:induction false} WordSizes()
    ensures Pow256(2) == U16 && Pow256(4) == U32 && Pow256(8) == U64
  {
    assert Pow256(4) == 256 * 256 * Pow256(2);
    assert Pow256(8) == 256 * 256 * 256 * 256 * Pow256(4);
  }

  lemma {:induction false} DigitMod(v: nat, d: nat, p: nat)
    requires p > 0 && d == v / 256
    ensures v % (256 * p) == v % 256 + 256 * (d % p)
  {
    var q, r := d / p, d % p;
    assert v == 256 * d + v % 256 && d == p * q + r;
    assert 256 * (p * q) == (256 * p) * q;
    ModUnique(v, 256 * p, q, v % 256 + 256 * r);
  }

  /** What is written as a word is read back, modulo the word. */
  lemma {:induction false} LeRoundTrip(v: nat, n: nat)
    ensures LeNat(LeBytes(v, n)) == v % Pow256(n)
  {
    if n > 0 {
      LeRoundTrip(v / 256, n - 1);
      DigitMod(v, v / 256, Pow256(n - 1));
    }
  }

  lemma {:induction false} MulSign(m: nat, d: int)
    ensures d >= 1 ==> m * d >= m
    ensures d <= -1 ==> m * d + m <= 0
  {}

  lemma {:induction false} ModUnique(v: nat, m: nat, q: nat, r: nat)
    requires m > 0 && r < m && v == m * q + r
    ensures v % m == r && v / m == q
  {
    var d := v / m - q;
    assert v == m * (v / m) + v % m;
    assert m * d == r - v % m;
    MulSign(m, d);
  }

  // ---------------------------------------------------------------- regions of words

  /** Where word `k` of `n` bytes lies: `n * k`. */
  function WordPlace(n: nat, k: nat): nat {
    if k == 0 then 0 else n + WordPlace(n, k - 1)
  }

  lemma {:induction false} WordPlaceIs(n: nat, k: nat)
    ensures WordPlace(n, k) == n * k
  {
    if k > 0 {
      WordPlaceIs(n, k - 1);
      MulStep(n, k - 1);
    }
  }


  /** Words of `n` bytes each, end to end. */
  function Words(vs: seq<nat>, n: nat): (b: bytes)
    ensures |b| == WordPlace(n, |vs|)
    decreases |vs|
  {
    if vs == [] then [] else Words(vs[..|vs| - 1], n) + LeBytes(vs[|vs| - 1], n)
  }

  lemma {:induction false} MulStep(n: nat, k: nat)
    ensures n * (k + 1) == n + n * k
  {}

  /** Word `k` lies at its place. */
  lemma {:induction false} WordsAt(vs: seq<nat>, n: nat, k: nat)
    requires k < |vs|
    ensures WordPlace(n, k) + n <= |Words(vs, n)|
    ensures Words(vs, n)[WordPlace(n, k)..WordPlace(n, k) + n] == LeBytes(vs[k], n)
    decreases |vs|
  {
    var front, last := vs[..|vs| - 1], LeBytes(vs[|vs| - 1], n);
    if k < |vs| - 1 {
      WordsAt(front, n, k);
      SliceLeft(Words(front, n), last, WordPlace(n, k), WordPlace(n, k) + n);
    } else {
      SliceRight(Words(front, n), last, 0, n);
    }
  }

  /** Bytes of a concatenation that lie in its second part. */
  lemma {:induction false} SliceRight(a: bytes, b: bytes, i: nat, j: nat)
    requires i <= j <= |b|
    ensures (a + b)[|a| + i..|a| + j] == b[i..j]
  {}

  lemma {:induction false} SliceLeft(a: bytes, b: bytes, i: nat, j: nat)
    requires i <= j <= |a|
    ensures (a + b)[i..j] == a[i..j]
  {}

  /** A slice of a slice. */
  lemma {:induction false} SubSlice(b: bytes, lo: nat, hi: nat, i: nat, j: nat)
    requires lo <= hi <= |b| && i <= j <= hi - lo
    ensures b[lo..hi][i..j] == b[lo + i..lo + j]
  {
    forall k | 0 <= k < j - i ensures b[lo..hi][i..j][k] == b[lo + i..lo + j][k] {}
  }

  lemma {:induction false} SmallMod(v: nat, m: nat)
    requires v < m
    ensures v % m == v
  {}

  lemma {:induction false} WordReadAt(region: bytes, rest: bytes, at: nat, v: nat, n: nat)
    requires at + n <= |region| && region[at..at + n] == LeBytes(v, n)
    requires v < Pow256(n)
    ensures LeNat((region + rest)[at..at + n]) == v
  {
    SliceLeft(region, rest, at, at + n);
    LeRoundTrip(v, n);
    SmallMod(v, Pow256(n));
  }

  /** The word read back from a region of words at the head of a file. */
  lemma {:induction false} WordRead(vs: seq<nat>, n: nat, k: nat, rest: bytes)
    requires k < |vs| && vs[k] < Pow256(n)
    ensures WordPlace(n, k) + n <= |Words(vs, n)|
    ensures LeNat((Words(vs, n) + rest)[WordPlace(n, k)..WordPlace(n, k) + n]) == vs[k]
  {
    var region, at := Words(vs, n), WordPlace(n, k);
    WordsAt(vs, n, k);
    WordReadAt(region, rest, at, vs[k], n);
  }

  /** A word stored over the bytes at `at`. */
  function Stored(b: bytes, at: nat, v: nat, n: nat): (r: bytes)
    requires at + n <= |b|
    ensures |r| == |b|
  {
    b[..at] + LeBytes(v, n) + b[at + n..]
  }

  lemma {:induction false} StoredLeft(a: bytes, b: bytes, at: nat, v: nat, n: nat)
    requires at + n <= |a|
    ensures Stored(a + b, at, v, n) == Stored(a, at, v, n) + b
  {
    assert (a + b)[..at] == a[..at];
    assert (a + b)[at + n..] == a[at + n..] + b;
  }

  lemma {:induction false} StoredLast(a: bytes, w: bytes, v: nat, n: nat)
    requires |w| == n
    ensures Stored(a + w, |a|, v, n) == a + LeBytes(v, n)
  {
    assert (a + w)[..|a|] == a && (a + w)[|a| + n..] == [];
  }

  /** A word stored over word `k`. */
  lemma {:induction false} WordStored(vs: seq<nat>, n: nat, k: nat, v: nat)
    requires k < |vs|
    ensures WordPlace(n, k) + n <= |Words(vs, n)|
    ensures Stored(Words(vs, n), WordPlace(n, k), v, n) == Words(vs[k := v], n)
    decreases |vs|
  {
    var front, last := vs[..|vs| - 1], vs[|vs| - 1];
    if k < |vs| - 1 {
      WordStored(front, n, k, v);
      StoredLeft(Words(front, n), LeBytes(last, n), WordPlace(n, k), v, n);
      assert vs[k := v][..|vs| - 1] == front[k := v];
    } else {
      StoredLast(Words(front, n), LeBytes(last, n), v, n);
      assert vs[k := v][..|vs| - 1] == front;
    }
  }

  /** The same at the head of a file. */
  lemma {:induction false} WordPatched(vs: seq<nat>, n: nat, k: nat, v: nat, rest: bytes)
    requires k < |vs|
    ensures WordPlace(n, k) + n <= |Words(vs, n)|
    ensures Stored(Words(vs, n) + rest, WordPlace(n, k), v, n) == Words(vs[k := v], n) + rest
  {
    WordStored(vs, n, k, v);
    StoredLeft(Words(vs, n), rest, WordPlace(n, k), v, n);
  }

  lemma {:induction false} ZeroWord(n: nat)
    ensures LeBytes(0, n) == seq(n, i => 0)
  {
    if n > 0 { ZeroWord(n - 1); }
  }
}
