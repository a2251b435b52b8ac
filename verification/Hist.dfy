/**
 The latency histogram: buckets by magnitude, linear inside each, and what its percentiles promise.

 A percentile is in parts per million. The values recorded are kept as a ghost list, in order.
 */
module Hist {
  import opened Bytes
  import opened HashTable

  const SUB_BITS: nat := 7
  const SUB: nat := 128
  const BUCKETS: nat := 8192
  const MILLION: nat := 1000000

  // ---------------------------------------------------------------- buckets

  /** The position of a value's top bit. */
  function Magnitude(v: nat): nat {
    if v < 2 then 0 else 1 + Magnitude(v / 2)
  }

  lemma {:induction false} MagnitudeIs(v: nat)
    requires v >= SUB
    ensures Magnitude(v) >= SUB_BITS
  {
    assert Magnitude(v) == 2 + Magnitude(v / 2 / 2);
    assert Magnitude(v / 2 / 2) == 2 + Magnitude(v / 2 / 2 / 2 / 2);
    assert Magnitude(v / 2 / 2 / 2 / 2) == 2 + Magnitude(v / 2 / 2 / 2 / 2 / 2 / 2);
    assert Magnitude(v / 2 / 2 / 2 / 2 / 2 / 2) >= 1;
  }

  /** The bucket of a value: its magnitude, then its leading bits. */
  function Index(v: nat): nat {
    if v < SUB then v
    else
      MagnitudeIs(v);
      var shift := Magnitude(v) - SUB_BITS;
      (shift + 1) * SUB + v / Pow2(shift) % SUB
  }

  /** The smallest value of a bucket, before it is cut to a word. */
  function LowAt(i: nat): nat {
    if i < SUB then i else (SUB + i % SUB) * Pow2(i / SUB - 1)
  }

  /** `value_at`: in a 64-bit word, bits shifted past it lost. */
  function ValueAt(i: nat): nat { LowAt(i) % U64 }

  lemma {:induction false} HalfOf(v: nat, p: nat)
    requires p > 0
    ensures v / (2 * p) == v / 2 / p
  {
    var q, r := v / 2 / p, v / 2 % p;
    assert v / 2 == p * q + r && v == 2 * (v / 2) + v % 2;
    assert 2 * (p * q) == (2 * p) * q;
    ModUnique(v, 2 * p, q, 2 * r + v % 2);
  }

  lemma {:induction false} MagnitudeSmall(v: nat)
    requires SUB <= v < 2 * SUB
    ensures Magnitude(v) == SUB_BITS
  {
    assert Magnitude(v) == 2 + Magnitude(v / 2 / 2);
    assert Magnitude(v / 2 / 2) == 2 + Magnitude(v / 2 / 2 / 2 / 2);
    assert Magnitude(v / 2 / 2 / 2 / 2) == 2 + Magnitude(v / 2 / 2 / 2 / 2 / 2 / 2);
    assert v / 2 / 2 / 2 / 2 / 2 / 2 == 2 || v / 2 / 2 / 2 / 2 / 2 / 2 == 3;
  }

  lemma {:induction false} IndexSmall(v: nat)
    requires v < 2 * SUB
    ensures Index(v) == v
  {
    if v >= SUB { MagnitudeSmall(v); }
  }

  lemma {:induction false} IndexLarge(v: nat, shift: nat)
    requires v >= 2 * SUB && Magnitude(v / 2) == SUB_BITS + shift
    ensures Index(v) == SUB + Index(v / 2)
  {
    HalfOf(v, Pow2(shift));
  }

  /** A value under twice the sub-buckets is its own bucket; any other lies a magnitude above its half. */
  lemma {:induction false} IndexHalves(v: nat)
    ensures v < 2 * SUB ==> Index(v) == v
    ensures v >= 2 * SUB ==> Index(v) == SUB + Index(v / 2)
  {
    if v >= 2 * SUB {
      MagnitudeIs(v / 2);
      IndexLarge(v, Magnitude(v / 2) - SUB_BITS);
    } else {
      IndexSmall(v);
    }
  }

  lemma {:induction false} LowDoubles(i: nat)
    ensures i < 2 * SUB ==> LowAt(i) == i
    ensures i >= 2 * SUB ==> LowAt(i) == 2 * LowAt(i - SUB)
  {
    if i >= 2 * SUB {
      assert (i - SUB) % SUB == i % SUB && (i - SUB) / SUB == i / SUB - 1;
      var a, p := SUB + i % SUB, Pow2(i / SUB - 2);
      assert a * (2 * p) == 2 * (a * p);
    }
  }

  /** A value lies in its bucket. */
  lemma {:induction false} InBucket(v: nat)
    ensures LowAt(Index(v)) <= v < LowAt(Index(v) + 1)
  {
    IndexHalves(v);
    LowDoubles(Index(v));
    LowDoubles(Index(v) + 1);
    if v >= 2 * SUB { InBucket(v / 2); AtLeastSub(v / 2); }
  }

  lemma {:induction false} AtLeastSub(v: nat)
    requires v >= SUB
    ensures Index(v) >= SUB
  {
    IndexHalves(v);
    if v >= 2 * SUB { AtLeastSub(v / 2); }
  }

  /** Buckets past the first are no wider than a 128th of where they start. */
  lemma {:induction false} Widths(i: nat)
    ensures LowAt(i) < LowAt(i + 1)
    ensures i < SUB ==> LowAt(i + 1) == LowAt(i) + 1
    ensures i >= SUB ==> SUB * (LowAt(i + 1) - LowAt(i)) <= LowAt(i)
  {
    LowDoubles(i);
    LowDoubles(i + 1);
    if i >= 2 * SUB { Widths(i - SUB); }
  }

  lemma {:induction false} LowsAscend(i: nat, j: nat)
    requires i <= j
    ensures LowAt(i) <= LowAt(j)
    decreases j
  {
    if i < j {
      Widths(j - 1);
      LowsAscend(i, j - 1);
    }
  }

  /** The bucket of a larger value is no earlier. */
  lemma {:induction false} IndexMono(a: nat, b: nat)
    requires a <= b
    ensures Index(a) <= Index(b)
  {
    InBucket(a);
    InBucket(b);
    if Index(a) > Index(b) { LowsAscend(Index(b) + 1, Index(a)); }
  }

  /** The last bucket a word reaches, and the one past it, which a word cannot hold. */
  const LAST: nat := 7423

  const TOP: nat := 255 * 0x100_0000_0000_0000

  lemma {:induction false} BigPowers()
    ensures Pow2(56) == 0x100_0000_0000_0000 && Pow2(57) == 0x200_0000_0000_0000
  {
    assert Pow2(7) == 128;
    PowSum(7, 7);
    PowSum(14, 14);
    PowSum(28, 28);
    PowSum(1, 56);
  }

  lemma {:induction false} LastBuckets()
    ensures LowAt(LAST) == TOP && LowAt(LAST + 1) == U64
    ensures ValueAt(LAST) == TOP && ValueAt(LAST + 1) == 0
  {
    BigPowers();
    assert LAST / SUB - 1 == 56 && LAST % SUB == 127;
    assert (LAST + 1) / SUB - 1 == 57 && (LAST + 1) % SUB == 0;
  }

  /** A word's bucket is one of the histogram's, and its edges are what a word holds, but for the last bucket's upper one. */
  lemma {:induction false} WordBucket(v: nat)
    requires v < U64
    ensures Index(v) <= LAST && ValueAt(Index(v)) == LowAt(Index(v))
    ensures Index(v) < LAST ==> ValueAt(Index(v) + 1) == LowAt(Index(v) + 1)
    ensures Index(v) == LAST <==> v >= TOP
  {
    InBucket(v);
    LastBuckets();
    if Index(v) > LAST { LowsAscend(LAST + 1, Index(v)); }
    LowsAscend(Index(v), LAST);
    if Index(v) < LAST { LowsAscend(Index(v) + 1, LAST); }
    SmallMod(LowAt(Index(v)), U64);
    if Index(v) < LAST { SmallMod(LowAt(Index(v) + 1), U64); }
  }

  // ---------------------------------------------------------------- what was recorded

  /** How many values lie in bucket `i`. */
  ghost function CountIn(vs: seq<nat>, i: nat): nat {
    if vs == [] then 0 else CountIn(vs[..|vs| - 1], i) + if Index(vs[|vs| - 1]) == i then 1 else 0
  }

  /** How many lie in the first `i` buckets. */
  ghost function CountBefore(vs: seq<nat>, i: nat): nat {
    if vs == [] then 0 else CountBefore(vs[..|vs| - 1], i) + if Index(vs[|vs| - 1]) < i then 1 else 0
  }

  ghost function CountBelow(vs: seq<nat>, x: nat): nat {
    if vs == [] then 0 else CountBelow(vs[..|vs| - 1], x) + if vs[|vs| - 1] < x then 1 else 0
  }

  /** `x` is the `k`-th smallest of the values, from one: fewer than `k` are below it, and no fewer at or below. */
  ghost predicate IsRank(vs: seq<nat>, k: nat, x: nat) {
    x in vs && CountBelow(vs, x) < k <= CountBelow(vs, x + 1)
  }

  lemma {:induction false} CountNext(vs: seq<nat>, i: nat)
    ensures CountBefore(vs, i + 1) == CountBefore(vs, i) + CountIn(vs, i)
  {
    if vs != [] { CountNext(vs[..|vs| - 1], i); }
  }

  lemma {:induction false} NoneBefore(vs: seq<nat>)
    ensures CountBefore(vs, 0) == 0
  {
    if vs != [] { NoneBefore(vs[..|vs| - 1]); }
  }

  ghost predicate AllWords(vs: seq<nat>) { forall k :: 0 <= k < |vs| ==> vs[k] < U64 }

  lemma {:induction false} AllBefore(vs: seq<nat>, i: nat)
    requires AllWords(vs) && i > LAST
    ensures CountBefore(vs, i) == |vs|
  {
    if vs != [] {
      WordBucket(vs[|vs| - 1]);
      AllBefore(vs[..|vs| - 1], i);
    }
  }

  /** Values of earlier buckets are below, and values below are of no later bucket. */
  lemma {:induction false} BucketsAndValues(vs: seq<nat>, x: nat)
    ensures CountBefore(vs, Index(x)) <= CountBelow(vs, x)
    ensures CountBelow(vs, x + 1) <= CountBefore(vs, Index(x) + 1)
  {
    if vs != [] {
      var v := vs[|vs| - 1];
      BucketsAndValues(vs[..|vs| - 1], x);
      if v <= x { IndexMono(v, x); }
      if Index(v) < Index(x) && v >= x { IndexMono(x, v); }
    }
  }

  lemma {:induction false} BeforeMono(vs: seq<nat>, i: nat, j: nat)
    requires i <= j
    ensures CountBefore(vs, i) <= CountBefore(vs, j)
  {
    if vs != [] { BeforeMono(vs[..|vs| - 1], i, j); }
  }

  /** The bucket where the running count first reaches `k` is the `k`-th smallest value's own. */
  lemma {:induction false} RankBucket(vs: seq<nat>, k: nat, x: nat, i: nat)
    requires IsRank(vs, k, x) && CountBefore(vs, i) < k <= CountBefore(vs, i + 1)
    ensures Index(x) == i
  {
    BucketsAndValues(vs, x);
    if Index(x) < i { BeforeMono(vs, Index(x) + 1, i); }
    if Index(x) > i { BeforeMono(vs, i + 1, Index(x)); }
  }

  ghost function MaxOf(vs: seq<nat>): (m: nat) {
    if vs == [] then 0
    else
      var m, last := MaxOf(vs[..|vs| - 1]), vs[|vs| - 1];
      if last > m then last else m
  }

  lemma {:induction false} MaxHolds(vs: seq<nat>, x: nat)
    requires x in vs
    ensures x <= MaxOf(vs)
  {
    if x != vs[|vs| - 1] {
      assert vs == vs[..|vs| - 1] + [vs[|vs| - 1]];
      MaxHolds(vs[..|vs| - 1], x);
    }
  }

  ghost function MinOf(vs: seq<nat>): (m: nat) {
    if vs == [] then U64 - 1
    else
      var m, last := MinOf(vs[..|vs| - 1]), vs[|vs| - 1];
      if last < m then last else m
  }

  ghost function SumOf(vs: seq<nat>): nat {
    if vs == [] then 0 else SumOf(vs[..|vs| - 1]) + vs[|vs| - 1]
  }

  // ---------------------------------------------------------------- the answer

  /** The rank a percentile asks for. */
  function Wanted(ppm: nat, total: nat): nat {
    var want := DivCeil(ppm * total, MILLION);
    if want > 1 then want else 1
  }

  /** What a percentile reports of bucket `i`: its upper edge, no less than its lower and no more than the largest value. */
  function Reported(i: nat, max: nat): nat {
    var next := ValueAt(i + 1);
    var edge := if next > 0 then next - 1 else 0;
    var p := if edge > ValueAt(i) then edge else ValueAt(i);
    if p < max then p else max
  }

  /**
   What is reported of a value's bucket is the value, or exceeds it by less than a 128th of it, or the
   value is past what the last bucket's lost upper edge can report: it is no less than the value exactly
   where the value is at most that.
   */
  lemma {:induction false} ReportsAbove(x: nat, max: nat)
    requires x <= max < U64
    ensures var p := Reported(Index(x), max);
      && (p >= x <==> x <= TOP)
      && (p >= x ==> p == x || SUB * (p - x) < x)
      && (p < x ==> p == TOP)
  {
    InBucket(x);
    WordBucket(x);
    Widths(Index(x));
    LastBuckets();
    IndexHalves(x);
    if Index(x) >= SUB { AtLeast(x); }
  }

  lemma {:induction false} AtLeast(x: nat)
    requires Index(x) >= SUB
    ensures x >= SUB
  {
    IndexHalves(x);
  }

  /** The bucket where the running count first reaches `k`. */
  ghost predicate IsBucket(vs: seq<nat>, k: nat, i: nat) {
    i <= LAST && CountBefore(vs, i) < k <= CountBefore(vs, i + 1)
  }

  /** What a histogram of these values answers at a percentile. */
  ghost predicate Answers(vs: seq<nat>, ppm: nat, r: nat) {
    if vs == [] then r == 0 else exists i: nat :: AnswersAt(vs, ppm, r, i)
  }

  ghost predicate AnswersAt(vs: seq<nat>, ppm: nat, r: nat, i: nat) {
    IsBucket(vs, Wanted(ppm, |vs|), i) && r == Reported(i, MaxOf(vs))
  }

  lemma {:induction false} BelowNext(vs: seq<nat>, x: nat)
    ensures CountBelow(vs, x) <= CountBelow(vs, x + 1)
    ensures CountBelow(vs, x) < CountBelow(vs, x + 1) ==> x in vs
  {
    if vs != [] {
      BelowNext(vs[..|vs| - 1], x);
      assert vs == vs[..|vs| - 1] + [vs[|vs| - 1]];
    }
  }

  lemma {:induction false} AllBelow(vs: seq<nat>, m: nat)
    requires forall k :: 0 <= k < |vs| ==> vs[k] < m
    ensures CountBelow(vs, m) == |vs|
  {
    if vs != [] { AllBelow(vs[..|vs| - 1], m); }
  }

  lemma {:induction false} NoneBelow(vs: seq<nat>)
    ensures CountBelow(vs, 0) == 0
  {
    if vs != [] { NoneBelow(vs[..|vs| - 1]); }
  }

  /** There is a `k`-th smallest value. */
  lemma {:induction false} RankExists(vs: seq<nat>, k: nat) returns (x: nat)
    requires 1 <= k <= |vs| && AllWords(vs)
    ensures IsRank(vs, k, x)
  {
    x := 0;
    AllBelow(vs, U64);
    NoneBelow(vs);
    while CountBelow(vs, x + 1) < k
      invariant x < U64 && CountBelow(vs, x) < k
      decreases U64 - x
    {
      x := x + 1;
    }
    BelowNext(vs, x);
  }

  lemma {:induction false} WantedWithin(ppm: nat, total: nat)
    requires ppm <= MILLION && total > 0
    ensures 1 <= Wanted(ppm, total) <= total
  {
    Products(ppm, MILLION, total);
  }

  lemma {:induction false} Products(a: nat, b: nat, n: nat)
    requires a <= b
    ensures a * n <= b * n
  {}

  /**
   A percentile against the order statistic `x` it stands for: no less exactly where `x` is at most what
   the last bucket can report, above it by less than a 128th of it, and exact below 128.
   */
  lemma {:induction false} PercentileBounds(vs: seq<nat>, ppm: nat, r: nat, x: nat)
    requires vs != [] && AllWords(vs) && ppm <= MILLION && Answers(vs, ppm, r) && IsRank(vs, Wanted(ppm, |vs|), x)
    ensures r >= x <==> x <= TOP
    ensures r >= x ==> r == x || SUB * (r - x) < x
    ensures x < SUB ==> r == x
    ensures r < x ==> r == TOP
  {
    var i: nat :| AnswersAt(vs, ppm, r, i);
    RankBucket(vs, Wanted(ppm, |vs|), x, i);
    MaxHolds(vs, x);
    MaxIsWord(vs);
    ReportsAbove(x, MaxOf(vs));
  }

  lemma {:induction false} MaxIsWord(vs: seq<nat>)
    requires AllWords(vs)
    ensures MaxOf(vs) < U64
  {
    if vs != [] { MaxIsWord(vs[..|vs| - 1]); }
  }

  lemma {:induction false} WantedMono(a: nat, b: nat, total: nat)
    requires a <= b
    ensures Wanted(a, total) <= Wanted(b, total)
  {
    Products(a, b, total);
  }

  /** A later bucket reports no less. */
  lemma {:induction false} ReportedMono(i: nat, j: nat, max: nat)
    requires i <= j <= LAST
    ensures Reported(i, max) <= Reported(j, max)
  {
    LastBuckets();
    LowsAscend(i, j);
    LowsAscend(j, LAST);
    Widths(i);
    Widths(j);
    SmallMod(LowAt(i), U64);
    SmallMod(LowAt(j), U64);
    if i < LAST { LowsAscend(i + 1, LAST); SmallMod(LowAt(i + 1), U64); }
    if j < LAST { LowsAscend(j + 1, LAST); SmallMod(LowAt(j + 1), U64); LowsAscend(i + 1, j + 1); }
    if i < j { LowsAscend(i + 1, j); }
  }

  /** Percentiles do not fall as they are asked for higher. */
  lemma {:induction false} PercentileMono(vs: seq<nat>, a: nat, b: nat, r: nat, s: nat)
    requires a <= b && Answers(vs, a, r) && Answers(vs, b, s)
    ensures r <= s
  {
    if vs != [] {
      var i: nat :| AnswersAt(vs, a, r, i);
      var j: nat :| AnswersAt(vs, b, s, j);
      WantedMono(a, b, |vs|);
      BucketsMono(vs, Wanted(a, |vs|), Wanted(b, |vs|), i, j);
      ReportedMono(i, j, MaxOf(vs));
    }
  }

  lemma {:induction false} BucketsMono(vs: seq<nat>, k: nat, l: nat, i: nat, j: nat)
    requires IsBucket(vs, k, i) && IsBucket(vs, l, j) && k <= l
    ensures i <= j
  {
    if i > j { BeforeMono(vs, j + 1, i); }
  }

  // ---------------------------------------------------------------- order does not matter

  lemma {:induction false} Without(vs: seq<nat>, j: nat, i: nat)
    requires j < |vs|
    ensures var w := vs[..j] + vs[j + 1..];
      CountBefore(vs, i) == CountBefore(w, i) + if Index(vs[j]) < i then 1 else 0
  {
    var w := vs[..j] + vs[j + 1..];
    if j == |vs| - 1 {
      assert w == vs[..|vs| - 1];
    } else {
      Without(vs[..|vs| - 1], j, i);
      assert w[..|w| - 1] == vs[..|vs| - 1][..j] + vs[..|vs| - 1][j + 1..];
      assert w[|w| - 1] == vs[|vs| - 1];
    }
  }

  lemma {:induction false} Middle(l: seq<nat>, x: nat, r: seq<nat>)
    ensures multiset(l + [x] + r) == multiset(l + r) + multiset{x}
  {}

  lemma {:induction false} Cancel(a: multiset<nat>, b: multiset<nat>, x: nat)
    requires a + multiset{x} == b + multiset{x}
    ensures a == b
  {
    forall y ensures a[y] == b[y] {
      assert (a + multiset{x})[y] == (b + multiset{x})[y];
    }
  }

  lemma {:induction false} OneLess(vs: seq<nat>, ws: seq<nat>, j: nat, rest: seq<nat>)
    requires vs != [] && multiset(vs) == multiset(ws) && j < |ws| && ws[j] == vs[|vs| - 1]
    requires rest == ws[..j] + ws[j + 1..]
    ensures multiset(vs[..|vs| - 1]) == multiset(rest)
  {
    var front, last := vs[..|vs| - 1], ws[j];
    assert vs == front + [last] + [] && ws == ws[..j] + [last] + ws[j + 1..];
    Middle(front, last, []);
    Middle(ws[..j], last, ws[j + 1..]);
    assert front + [] == front;
    Cancel(multiset(front), multiset(rest), last);
  }

  lemma {:induction false} SameCounts(vs: seq<nat>, ws: seq<nat>, i: nat)
    requires multiset(vs) == multiset(ws)
    ensures CountBefore(vs, i) == CountBefore(ws, i)
    decreases |vs|
  {
    if vs == [] {
      assert |ws| == |multiset(ws)| == 0;
    } else {
      var last := vs[|vs| - 1];
      assert last in multiset(ws);
      var j :| 0 <= j < |ws| && ws[j] == last;
      var rest := ws[..j] + ws[j + 1..];
      OneLess(vs, ws, j, rest);
      SameCounts(vs[..|vs| - 1], rest, i);
      Without(ws, j, i);
    }
  }

  lemma {:induction false} MaxAt(vs: seq<nat>) returns (j: nat)
    requires vs != []
    ensures j < |vs| && vs[j] == MaxOf(vs)
  {
    var front, last := vs[..|vs| - 1], vs[|vs| - 1];
    if front == [] || last > MaxOf(front) {
      j := |vs| - 1;
    } else {
      j := MaxAt(front);
    }
  }

  lemma {:induction false} InBoth(vs: seq<nat>, ws: seq<nat>, x: nat)
    requires multiset(vs) == multiset(ws) && x in vs
    ensures x in ws
  {
    assert x in multiset(vs);
  }

  lemma {:induction false} SameMax(vs: seq<nat>, ws: seq<nat>)
    requires multiset(vs) == multiset(ws) && vs != [] && ws != []
    ensures MaxOf(vs) == MaxOf(ws)
  {
    var i := MaxAt(vs);
    var j := MaxAt(ws);
    InBoth(vs, ws, MaxOf(vs));
    InBoth(ws, vs, MaxOf(ws));
    MaxHolds(ws, MaxOf(vs));
    MaxHolds(vs, MaxOf(ws));
  }

  lemma {:induction false} SameLength(vs: seq<nat>, ws: seq<nat>)
    requires multiset(vs) == multiset(ws)
    ensures |vs| == |ws|
  {
    assert |vs| == |multiset(vs)| && |ws| == |multiset(ws)|;
  }

  /** Answers depend on the values recorded, not on their order: nor on which histogram they were recorded in before merging. */
  lemma {:induction false} OrderFree(vs: seq<nat>, ws: seq<nat>, ppm: nat, r: nat)
    requires multiset(vs) == multiset(ws) && Answers(vs, ppm, r)
    ensures Answers(ws, ppm, r)
  {
    SameLength(vs, ws);
    if vs != [] {
      var k := Wanted(ppm, |vs|);
      var i: nat :| AnswersAt(vs, ppm, r, i);
      SameCounts(vs, ws, i);
      SameCounts(vs, ws, i + 1);
      SameMax(vs, ws);
      assert AnswersAt(ws, ppm, r, i);
    }
  }

  // ---------------------------------------------------------------- the histogram

  lemma {:induction false} CountsJoin(vs: seq<nat>, ws: seq<nat>, i: nat)
    ensures CountIn(vs + ws, i) == CountIn(vs, i) + CountIn(ws, i)
    decreases |ws|
  {
    if ws == [] {
      assert vs + ws == vs;
    } else {
      assert (vs + ws)[..|vs + ws| - 1] == vs + ws[..|ws| - 1];
      CountsJoin(vs, ws[..|ws| - 1], i);
    }
  }

  lemma {:induction false} TotalsJoin(vs: seq<nat>, ws: seq<nat>)
    ensures SumOf(vs + ws) == SumOf(vs) + SumOf(ws)
    ensures MaxOf(vs + ws) == (if MaxOf(ws) > MaxOf(vs) then MaxOf(ws) else MaxOf(vs))
    ensures MinOf(vs + ws) == (if MinOf(ws) < MinOf(vs) then MinOf(ws) else MinOf(vs))
    decreases |ws|
  {
    if ws == [] {
      assert vs + ws == vs;
      MinIsWord(vs);
    } else {
      assert (vs + ws)[..|vs + ws| - 1] == vs + ws[..|ws| - 1];
      TotalsJoin(vs, ws[..|ws| - 1]);
    }
  }

  lemma {:induction false} MinIsWord(vs: seq<nat>)
    ensures MinOf(vs) < U64
  {
    if vs != [] { MinIsWord(vs[..|vs| - 1]); }
  }

  /** Counts by bucket, and the totals beside them. */
  class Histogram {
    const counts: array<nat>
    var total: nat
    var max: nat
    var min: nat
    var sum: nat

    constructor ()
      ensures Holds([]) && fresh(counts)
    {
      counts := new nat[BUCKETS](_ => 0);
      total, max, min, sum := 0, 0, U64 - 1, 0;
    }

    /** The histogram is of these values. */
    ghost predicate Holds(vs: seq<nat>)
      reads this, counts
    {
      && counts.Length == BUCKETS && AllWords(vs)
      && total == |vs| && max == MaxOf(vs) && min == MinOf(vs) && sum == SumOf(vs)
      && forall i :: 0 <= i < BUCKETS ==> counts[i] == CountIn(vs, i)
    }

    /** One observation. */
    method Record(v: nat, ghost vs: seq<nat>)
      requires Holds(vs) && v < U64
      modifies this, counts
      ensures Holds(vs + [v])
    {
      WordBucket(v);
      ghost var more := vs + [v];
      assert more[..|more| - 1] == vs;
      forall i | 0 <= i < BUCKETS
        ensures CountIn(more, i) == CountIn(vs, i) + if i == Index(v) then 1 else 0 {}
      var i := Index(v);
      if i < counts.Length {
        counts[i] := counts[i] + 1;
        total := total + 1;
        sum := sum + v;
        if v > max { max := v; }
        if v < min { min := v; }
      }
    }

    /** The value at a percentile. */
    method Percentile(ppm: nat, ghost vs: seq<nat>) returns (r: nat)
      requires Holds(vs) && ppm <= MILLION
      ensures Answers(vs, ppm, r)
    {
      if total == 0 {
        return 0;
      }
      var want := Wanted(ppm, total);
      WantedWithin(ppm, total);
      NoneBefore(vs);
      var seen, i := 0, 0;
      while i < counts.Length
        invariant i <= counts.Length && seen == CountBefore(vs, i) < want
      {
        CountNext(vs, i);
        if i > LAST { AllBefore(vs, i); }
        if counts[i] != 0 {
          seen := seen + counts[i];
          if seen >= want {
            assert AnswersAt(vs, ppm, Reported(i, max), i);
            return Reported(i, max);
          }
        }
        i := i + 1;
      }
      AllBefore(vs, i);
      r := max;
    }

    /** Another histogram's values merged in. */
    method Merge(other: Histogram, ghost vs: seq<nat>, ghost ws: seq<nat>)
      requires Holds(vs) && other.Holds(ws) && other != this && other.counts != counts
      modifies this, counts
      ensures Holds(vs + ws) && other.Holds(ws)
    {
      TotalsJoin(vs, ws);
      var i := 0;
      while i < other.counts.Length
        invariant i <= BUCKETS && counts.Length == BUCKETS && other.Holds(ws)
        invariant total == |vs| && max == MaxOf(vs) && min == MinOf(vs) && sum == SumOf(vs)
        invariant forall k :: 0 <= k < i ==> counts[k] == CountIn(vs + ws, k)
        invariant forall k :: i <= k < BUCKETS ==> counts[k] == CountIn(vs, k)
      {
        CountsJoin(vs, ws, i);
        counts[i] := counts[i] + other.counts[i];
        i := i + 1;
      }
      total := total + other.total;
      sum := sum + other.sum;
      if other.max > max { max := other.max; }
      if other.total > 0 && other.min < min { min := other.min; }
      MinIsWord(vs);
      if ws == [] { assert MinOf(ws) == U64 - 1; }
    }
  }

  /** One value past what the last bucket can report: every percentile of it is less than it. */
  method TopIsMissed(v: nat, ppm: nat) returns (r: nat)
    requires TOP < v < U64 && ppm <= MILLION
    ensures r == TOP < v
  {
    var h := new Histogram();
    h.Record(v, []);
    assert [] + [v] == [v];
    r := h.Percentile(ppm, [v]);
    WantedWithin(ppm, 1);
    ghost var x := RankExists([v], Wanted(ppm, 1));
    PercentileBounds([v], ppm, r, x);
  }
}
