/**
 The seek of a flat index: a fence narrows a binary search of the records, and is never trusted.

 `keyAt` reads the key of the record at a rank, `fenceKey` the fence's own copy of an entry's key;
 either may fail to read.
 */
module FenceSeek {
  import opened Bytes
  import opened Wrappers
  import opened HashTable

  const FENCE_MIN_STRIDE: nat := 16

  /** A key that reads, and is below the query: what fails to read sorts as not below. */
  predicate ReadsBelow(key: Option<bytes>, q: bytes) {
    key.Some? && Below(key.value, q)
  }

  // ---------------------------------------------------------------- the stride

  /** The least power of two not below `n`. */
  function NextPowerOfTwo(n: nat): (p: nat)
    ensures PowerOfTwo(p) && p >= n
    ensures p > 1 ==> p / 2 < n
  {
    if n <= 1 then 1
    else
      var h := NextPowerOfTwo((n + 1) / 2);
      assert (2 * h) / 2 == h;
      2 * h
  }

  /** The fence's stride for `n` keys, aiming at no more than `target` entries. */
  function FenceStride(n: nat, target: nat): nat
    requires target > 0
  {
    NextPowerOfTwo(Max(DivCeil(n, target), FENCE_MIN_STRIDE))
  }

  /** A power of two, no less than sixteen, that keeps the fence to its target. */
  lemma {:induction false} StrideMeetsTarget(n: nat, target: nat)
    requires target > 0
    ensures var s := FenceStride(n, target);
      PowerOfTwo(s) && s >= FENCE_MIN_STRIDE && DivCeil(n, s) <= target
      && (s > FENCE_MIN_STRIDE ==> s / 2 < DivCeil(n, target))
  {
    var s := FenceStride(n, target);
    if n > 0 {
      FewEnough(n, target, DivCeil(n, target), s);
    }
    Sixteen();
  }

  lemma {:induction false} FewEnough(n: nat, target: nat, w: nat, s: nat)
    requires target > 0 && s > 0 && n <= target * w && w <= s && n > 0
    ensures DivCeil(n, s) <= target
  {
    var c := DivCeil(n, s);
    if c > target {
      Scaled(target, c - 1, s);
      Scaled2(target, w, s);
    }
  }

  lemma {:induction false} Scaled(a: nat, b: nat, s: nat)
    requires a <= b
    ensures s * a <= s * b
  {}

  lemma {:induction false} Scaled2(a: nat, w: nat, s: nat)
    requires w <= s
    ensures a * w <= s * a
  {}

  /** Where a fence's entry lies among the ranks. */
  function RankOf(i: nat, stride: nat): nat { stride * i }

  lemma {:induction false} RankStep(i: nat, stride: nat)
    requires i > 0
    ensures RankOf(i, stride) == RankOf(i - 1, stride) + stride
  {}

  lemma {:induction false} RankWithin(i: nat, n: nat, stride: nat)
    requires stride > 0 && i < DivCeil(n, stride)
    ensures RankOf(i, stride) < n
  {
    Scaled(i, DivCeil(n, stride) - 1, stride);
  }

  lemma {:induction false} RankPast(n: nat, stride: nat)
    requires stride > 0
    ensures RankOf(DivCeil(n, stride), stride) >= n
  {
    if n == 0 { assert DivCeil(n, stride) == 0 || stride * (DivCeil(n, stride) - 1) < 0; }
  }

  // ---------------------------------------------------------------- searching

  /** The first place from `lo` to `hi` that does not read below the query, by halves. */
  method Search(keyAt: nat -> Option<bytes>, q: bytes, from: nat, upto: nat) returns (r: nat)
    requires from <= upto
    ensures from <= r <= upto
    ensures r > from ==> ReadsBelow(keyAt(r - 1), q)
    ensures r < upto ==> !ReadsBelow(keyAt(r), q)
  {
    var lo, hi := from, upto;
    while lo < hi
      invariant from <= lo <= hi <= upto
      invariant lo > from ==> ReadsBelow(keyAt(lo - 1), q)
      invariant hi < upto ==> !ReadsBelow(keyAt(hi), q)
      decreases hi - lo
    {
      var mid := lo + (hi - lo) / 2;
      if ReadsBelow(keyAt(mid), q) {
        lo := mid + 1;
      } else {
        hi := mid;
      }
    }
    r := lo;
  }

  /** The record at each rank reads as its key. */
  ghost predicate Reads(keyAt: nat -> Option<bytes>, keys: seq<bytes>) {
    forall r :: 0 <= r < |keys| ==> keyAt(r) == Some(keys[r])
  }

  /** Over keys in order, one not below with one below just before it is the rank of the query. */
  lemma {:induction false} OrderDecides(keyAt: nat -> Option<bytes>, keys: seq<bytes>, q: bytes, r: nat)
    requires Ascending(keys) && Reads(keyAt, keys) && r <= |keys|
    requires r > 0 ==> ReadsBelow(keyAt(r - 1), q)
    requires r < |keys| ==> !ReadsBelow(keyAt(r), q)
    ensures LowerBound(keys, q, 0, |keys|, r)
  {
    forall i | 0 <= i < r ensures Below(keys[i], q) {
      if i < r - 1 { BelowTransitive(keys[i], keys[r - 1], q); }
    }
    forall i | r <= i < |keys| ensures !Below(keys[i], q) {
      if r < i && Below(keys[i], q) { BelowTransitive(keys[r], keys[i], q); }
    }
  }

  /** Whether `r` is the first rank whose key is not below the query, asked of the records on either side. */
  predicate Brackets(keyAt: nat -> Option<bytes>, n: nat, q: bytes, r: nat) {
    && r <= n
    && (r > 0 ==> ReadsBelow(keyAt(r - 1), q))
    && (r < n ==> keyAt(r).Some? && !Below(keyAt(r).value, q))
  }

  /** Two probes decide it. */
  lemma {:induction false} BracketsDecides(keyAt: nat -> Option<bytes>, keys: seq<bytes>, q: bytes, r: nat)
    requires Ascending(keys) && Reads(keyAt, keys)
    ensures Brackets(keyAt, |keys|, q, r) <==> LowerBound(keys, q, 0, |keys|, r)
  {
    if Brackets(keyAt, |keys|, q, r) {
      OrderDecides(keyAt, keys, q, r);
    }
  }

  // ---------------------------------------------------------------- the fence

  /** The fence a writer lays down: every stride-th key. */
  ghost predicate WritersFence(fenceKey: nat -> Option<bytes>, fenceN: nat, stride: nat, keys: seq<bytes>) {
    && stride > 0 && fenceN == DivCeil(|keys|, stride)
    && forall i :: 0 <= i < fenceN ==>
      RankOf(i, stride) < |keys| && fenceKey(i) == Some(keys[RankOf(i, stride)])
  }

  /** The ranks one side and the other of entry `lo`, the first the fence says is not below. */
  function Stride(lo: nat, stride: nat, n: nat): (w: (nat, nat))
    ensures w.0 <= w.1
  {
    var start := RankOf(if lo > 0 then lo - 1 else 0, stride);
    (start, Max(Min(RankOf(lo, stride), n), start))
  }

  /** The place among the entries where the fence says the query belongs. */
  ghost predicate Entry(fenceKey: nat -> Option<bytes>, fenceN: nat, q: bytes, lo: nat) {
    && lo <= fenceN
    && (lo > 0 ==> ReadsBelow(fenceKey(lo - 1), q))
    && (lo < fenceN ==> !ReadsBelow(fenceKey(lo), q))
  }

  /** The ranks a key can lie at, by the fence: the answer of a binary search of its entries. */
  method FenceWindow(fenceKey: nat -> Option<bytes>, fenceN: nat, stride: nat, n: nat, q: bytes)
    returns (start: nat, end: nat, ghost lo: nat)
    ensures start <= end && (start, end) == Stride(lo, stride, n)
    ensures Entry(fenceKey, fenceN, q, lo)
  {
    var at := Search(fenceKey, q, 0, fenceN);
    var w := Stride(at, stride, n);
    start, end, lo := w.0, w.1, at;
  }

  /** The writer's own fence: the window is within one stride, and the answer is in it. */
  lemma {:induction false} WindowHolds(fenceKey: nat -> Option<bytes>, fenceN: nat, stride: nat, keys: seq<bytes>, q: bytes,
    lo: nat, r: nat)
    requires Ascending(keys) && WritersFence(fenceKey, fenceN, stride, keys)
    requires Entry(fenceKey, fenceN, q, lo)
    requires LowerBound(keys, q, 0, |keys|, r)
    ensures var w := Stride(lo, stride, |keys|);
      w.0 <= r <= w.1 <= |keys| && w.1 - w.0 <= stride
  {
    if lo > 0 {
      RankWithin(lo - 1, |keys|, stride);
      RankStep(lo, stride);
      assert Below(keys[RankOf(lo - 1, stride)], q);
    }
    if lo < fenceN {
      RankWithin(lo, |keys|, stride);
      assert !Below(keys[RankOf(lo, stride)], q);
    } else {
      RankPast(|keys|, stride);
    }
  }

  /** Inside a window that holds the answer a search finds it. */
  lemma {:induction false} WindowFinds(keyAt: nat -> Option<bytes>, keys: seq<bytes>, q: bytes, start: nat, end: nat, r: nat, a: nat)
    requires Reads(keyAt, keys) && LowerBound(keys, q, 0, |keys|, r)
    requires start <= r <= end <= |keys| && start <= a <= end
    requires a > start ==> ReadsBelow(keyAt(a - 1), q)
    requires a < end ==> !ReadsBelow(keyAt(a), q)
    ensures a == r
  {}

  /** The first rank not below a query, by the plain search. */
  ghost function RankOfKey(keys: seq<bytes>, q: bytes): (r: nat)
    requires Ascending(keys)
    ensures LowerBound(keys, q, 0, |keys|, r)
  {
    var r := RankFrom(keys, q, 0);
    r
  }

  ghost function RankFrom(keys: seq<bytes>, q: bytes, i: nat): (r: nat)
    requires Ascending(keys) && i <= |keys| && forall k :: 0 <= k < i ==> Below(keys[k], q)
    ensures LowerBound(keys, q, 0, |keys|, r)
    decreases |keys| - i
  {
    if i < |keys| && Below(keys[i], q) then RankFrom(keys, q, i + 1)
    else
      assert forall k :: i <= k < |keys| ==> !Below(keys[k], q) by {
        forall k | i <= k < |keys| ensures !Below(keys[k], q) {
          if i < k && Below(keys[k], q) { BelowTransitive(keys[i], keys[k], q); }
        }
      }
      i
  }

  /** A seek through the fence, when it answers. */
  method SeekFence(keyAt: nat -> Option<bytes>, fenceKey: nat -> Option<bytes>, fenceN: nat, stride: nat,
    q: bytes, n: nat, ghost keys: seq<bytes>) returns (r: Option<nat>)
    requires Ascending(keys) && Reads(keyAt, keys) && n == |keys|
    ensures r.Some? ==> LowerBound(keys, q, 0, n, r.value)
    ensures WritersFence(fenceKey, fenceN, stride, keys) ==> r.Some?
  {
    var start, end, lo := FenceWindow(fenceKey, fenceN, stride, n, q);
    var a := Search(keyAt, q, start, end);
    BracketsDecides(keyAt, keys, q, a);
    if WritersFence(fenceKey, fenceN, stride, keys) {
      ghost var rank := RankOfKey(keys, q);
      WindowHolds(fenceKey, fenceN, stride, keys, q, lo, rank);
      WindowFinds(keyAt, keys, q, start, end, rank, a);
    }
    r := if Brackets(keyAt, n, q, a) then Some(a) else None;
  }

  /**
   `seek_with`: the rank of the first key not below the query, with the fence or without it and
   whatever the fence's bytes say. `full` is whether every record was searched: through a writer's
   own fence none is.
   */
  method SeekWith(keyAt: nat -> Option<bytes>, fenceKey: nat -> Option<bytes>, fenceN: nat, stride: nat,
    q: bytes, n: nat, fence: bool, ghost keys: seq<bytes>) returns (r: nat, full: bool)
    requires Ascending(keys) && Reads(keyAt, keys) && n == |keys|
    ensures LowerBound(keys, q, 0, n, r)
    ensures fence && fenceN > 0 && WritersFence(fenceKey, fenceN, stride, keys) ==> !full
  {
    if fence && fenceN > 0 {
      var a := SeekFence(keyAt, fenceKey, fenceN, stride, q, n, keys);
      if a.Some? {
        return a.value, false;
      }
    }
    r := Search(keyAt, q, 0, n);
    OrderDecides(keyAt, keys, q, r);
    full := true;
  }
}
