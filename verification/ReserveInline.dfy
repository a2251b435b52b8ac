/**
 Where the bound from totals fails: once runs go inline, an even list's records can be smaller than the
 list's own, and the checksum row a piece short.
 */
module ReserveInline {
  import opened Bytes
  import opened HashTable
  import opened FenceSeek
  import opened FlatLayout
  import opened ReservePlan
  import opened ReserveBound

  // ---------------------------------------------------------------- two lengths of run

  /** Keys of four bytes, some with a run of one byte and the rest with a longer one. */
  function TwoLengths(p: nat, q: nat, r: nat): (items: seq<Item>)
    ensures |items| == p + q
  {
    Even(4, 1, p) + Even(4, r, q)
  }

  lemma {:induction false} BytesJoin(a: seq<Item>, b: seq<Item>, inlineMax: nat, compact: bool)
    ensures RecBytes(a + b, inlineMax, compact) == RecBytes(a, inlineMax, compact) + RecBytes(b, inlineMax, compact)
  {
    if b == [] {
      assert a + b == a;
    } else {
      BytesJoin(a, b[..|b| - 1], inlineMax, compact);
      assert (a + b)[..|a + b| - 1] == a + b[..|b| - 1];
    }
  }

  lemma {:induction false} EvenBytes(klen: nat, run: nat, n: nat, inlineMax: nat, compact: bool, len: nat)
    requires len == RecLen(Item(klen, run), inlineMax, compact)
    ensures RecBytes(Even(klen, run, n), inlineMax, compact) == len * n
  {
    if n > 0 {
      EvenBytes(klen, run, n - 1, inlineMax, compact, len);
      assert Even(klen, run, n)[..n - 1] == Even(klen, run, n - 1);
      MulStep(len, n - 1);
    }
  }

  lemma {:induction false} TotalJoin(a: seq<nat>, b: seq<nat>)
    ensures Total(a + b) == Total(a) + Total(b)
  {
    if b == [] {
      assert a + b == a;
    } else {
      TotalJoin(a, b[..|b| - 1]);
      assert (a + b)[..|a + b| - 1] == a + b[..|b| - 1];
    }
  }

  lemma {:induction false} EvenTotal(run: nat, n: nat)
    ensures Total(seq(n, i => run)) == n * run
  {
    if n > 0 {
      EvenTotal(run, n - 1);
      assert seq(n, i => run)[..n - 1] == seq(n - 1, i => run);
    }
  }

  lemma {:induction false} TwoTotal(p: nat, q: nat, r: nat)
    ensures Total(RunsOf(TwoLengths(p, q, r))) == p + q * r
  {
    assert RunsOf(TwoLengths(p, q, r)) == seq(p, i => 1) + seq(q, i => r);
    TotalJoin(seq(p, i => 1), seq(q, i => r));
    EvenTotal(1, p);
    EvenTotal(r, q);
  }

  lemma {:induction false} TwoBytes(p: nat, q: nat, r: nat, inlineMax: nat, short: nat, long: nat)
    requires short == RecLen(Item(4, 1), inlineMax, false) && long == RecLen(Item(4, r), inlineMax, false)
    ensures RecBytes(TwoLengths(p, q, r), inlineMax, false) == short * p + long * q
  {
    BytesJoin(Even(4, 1, p), Even(4, r, q), inlineMax, false);
    EvenBytes(4, 1, p, inlineMax, false, short);
    EvenBytes(4, r, q, inlineMax, false, long);
  }

  /** Every list of four-byte keys has the same fence. */
  lemma {:induction false} FencesAlike(a: seq<Item>, b: seq<Item>, stride: nat, k: nat)
    requires |a| == |b| && stride > 0 && k <= DivCeil(|a|, stride)
    requires forall i :: 0 <= i < |a| ==> a[i].klen == b[i].klen
    ensures BlobOf(a, stride, k) == BlobOf(b, stride, k)
    decreases k
  {
    if k > 0 {
      RankWithin(k - 1, |a|, stride);
      FencesAlike(a, b, stride, k - 1);
    }
  }

  // ---------------------------------------------------------------- a page more of records

  lemma {:induction false} DoubledIs(c: nat, want: nat)
    requires c > 0 && 2 * want < U64
    ensures Doubled(c, want).Some?
    decreases want - c
  {
    if c < want { DoubledIs(2 * c, want); }
  }

  lemma {:induction false} CapIs(n: nat)
    requires n < U32
    ensures HashCap(n).Some?
  {
    DoubledIs(1, DivCeil(n * HASH_LOAD_DEN, HASH_LOAD_NUM));
  }

  /** A page more of records is a piece more in the row. */
  lemma {:induction false} PageMore(n: nat, recBytes: nat, fenceN: nat, blobLen: nat, blocks: nat, more: nat)
    requires n < U32 && recBytes + PAGE <= MAX_RECS
    ensures var a, b := ReserveOf(n, recBytes, fenceN, blobLen, blocks), ReserveOf(n, recBytes + PAGE, fenceN, blobLen, more);
      a.Some? && b.Some? && b.value.row == a.value.row + 4
  {
    CapIs(n);
    var a, b := LayoutFor(n, recBytes, fenceN, blobLen).value, LayoutFor(n, recBytes + PAGE, fenceN, blobLen).value;
    assert b.total == a.total + PAGE;
    ChunksMore((PAGE - 1) % PAGE + a.total, PAGE);
  }

  /** The bound's row is short of the list's own, where the list's records take a page more. */
  lemma {:induction false} RowMissed(items: seq<Item>, r: nat, total: nat, per: nat, inlineMax: nat, size: nat, target: nat)
    requires target > 0 && 0 < |items| < U32 && per == PerKey(|items|, r, total)
    requires Meets(items, |items|, 4, r, total) && Plannable(items, inlineMax, false) && Plannable(Even(4, per, |items|), inlineMax, false)
    requires forall i :: 0 <= i < |items| ==> items[i].klen == 4
    requires RecBytes(items, inlineMax, false) == RecBytes(Even(4, per, |items|), inlineMax, false) + PAGE <= MAX_RECS
    ensures !Bounds(items, 4, r, total, size, inlineMax, false, target)
  {
    var n := |items|;
    var evens, stride := Even(4, per, n), FenceStride(n, target);
    FencesAlike(items, evens, stride, DivCeil(n, stride));
    PageMore(n, RecBytes(evens, inlineMax, false), DivCeil(n, stride), BlobOf(evens, stride, DivCeil(n, stride)),
      BlockCount(BlockRuns(evens, inlineMax), size), BlockCount(BlockRuns(items, inlineMax), size));
  }

  /** So with two lengths of run, whose records take a page more than as many of the even length. */
  lemma {:induction false} TwoMissed(p: nat, q: nat, r: nat, total: nat, per: nat, inlineMax: nat, size: nat, target: nat,
    short: nat, long: nat, even: nat)
    requires target > 0 && 0 < p + q < U32 && 0 < r <= MAX_RUN && total == p + q * r && per == PerKey(p + q, r, total)
    requires short == RecLen(Item(4, 1), inlineMax, false) && long == RecLen(Item(4, r), inlineMax, false)
    requires even == RecLen(Item(4, per), inlineMax, false)
    requires short * p + long * q == even * (p + q) + PAGE <= MAX_RECS
    ensures !Bounds(TwoLengths(p, q, r), 4, r, total, size, inlineMax, false, target)
  {
    TwoTotal(p, q, r);
    TwoBytes(p, q, r, inlineMax, short, long);
    EvenBytes(4, per, p + q, inlineMax, false, even);
    RowMissed(TwoLengths(p, q, r), r, total, per, inlineMax, size, target);
  }

  // ---------------------------------------------------------------- exactly where it is a bound

  /** Any answer from a list's totals is a bound on the list's own reserve, where it can be written. */
  ghost predicate Bounds(items: seq<Item>, maxKey: nat, maxRun: nat, runBytes: nat, size: nat, inlineMax: nat, compact: bool, target: nat)
    requires target > 0
  {
    var r, exact := TotalsReserve(|items|, maxKey, maxRun, runBytes, size, inlineMax, target), WholeReserve(items, inlineMax, size, compact, target);
    Meets(items, |items|, maxKey, maxRun, runBytes) && Plannable(items, inlineMax, compact) && r.Some? ==>
      exact.Some? && NoLess(r.value, exact.value)
  }

  /** Runs of one byte and one long run: only the short ones go inline, and the even list's do not. */
  lemma {:induction false} LongRunMisses(inlineMax: nat, size: nat, target: nat)
    requires 0 < inlineMax <= 4 && target > 0
    ensures !Bounds(TwoLengths(4096, 1, 20485), 4, 20485, 24581, size, inlineMax, false, target)
  {
    assert PerKey(4097, 20485, 24581) == 6;
    TwoMissed(4096, 1, 20485, 24581, 6, inlineMax, size, target, 32, 28, 28);
  }

  /** Runs of one and of five bytes: padded one at a time they take more than padded alike. */
  lemma {:induction false} PaddingMisses(inlineMax: nat, size: nat, target: nat)
    requires inlineMax > 4 && target > 0
    ensures !Bounds(TwoLengths(12288, 4096, 5), 4, 5, 32768, size, inlineMax, false, target)
  {
    assert PerKey(16384, 5, 32768) == 2;
    TwoMissed(12288, 4096, 5, 32768, 2, inlineMax, size, target, 32, 36, 32);
  }

  /** An empty run and one just too long to go inline. */
  function OneOver(inlineMax: nat): seq<Item> { [Item(4, 0), Item(4, inlineMax + 1)] }

  /** A list of two, an item at a time. */
  lemma {:induction false} TwoItems(x: Item, y: Item, inlineMax: nat, compact: bool, size: nat)
    ensures RecBytes([x, y], inlineMax, compact) == RecLen(x, inlineMax, compact) + RecLen(y, inlineMax, compact)
    ensures var c := if Inlined(x, inlineMax) then Cut(0, 0) else Step(Cut(0, 0), x.run, size);
      CutAll(BlockRuns([x, y], inlineMax), size) == if Inlined(y, inlineMax) then c else Step(c, y.run, size)
    ensures Total(RunsOf([x, y])) == x.run + y.run
  {
    ItemsSnoc([], x, inlineMax, compact, size);
    ItemsSnoc([x], y, inlineMax, compact, size);
    assert [] + [x] == [x] && [x] + [y] == [x, y];
    var runs := RunsOf([x, y]);
    assert runs == [x.run] + [y.run] && [] + [x.run] == [x.run];
    TotalJoin([x.run], [y.run]);
    assert [x.run][..0] == [] && [y.run][..0] == [];
  }

  /** The second needs a block. */
  lemma {:induction false} OneOverIs(inlineMax: nat, size: nat, compact: bool)
    requires 0 < inlineMax && size > inlineMax + 1
    ensures BlockCount(BlockRuns(OneOver(inlineMax), inlineMax), size) == 1
    ensures RecBytes(OneOver(inlineMax), inlineMax, compact) <= 56
    ensures Total(RunsOf(OneOver(inlineMax))) == inlineMax + 1
  {
    TwoItems(Item(4, 0), Item(4, inlineMax + 1), inlineMax, compact, size);
  }

  /** As many of the even length go inline, yet are taken to need one. */
  lemma {:induction false} EvenBlocks(per: nat, inlineMax: nat, size: nat)
    requires 0 < per <= inlineMax && 2 * per < size
    ensures BlockCount(BlockRuns(Even(4, per, 2), inlineMax), size) == 0 && BlockCount(seq(2, i => per), size) == 1
  {
    var x := Item(4, per);
    assert Even(4, per, 2) == [x, x];
    TwoItems(x, x, inlineMax, false, size);
    AllInBlocks(Even(4, per, 2));
    EvenRuns(4, per, 2);
    TwoItems(x, x, 0, false, size);
  }

  lemma {:induction false} EvenLayout(per: nat, inlineMax: nat, blob: nat, fenceN: nat)
    requires 2 * per + 62 <= MAX_RECS && 0 < per <= inlineMax
    ensures RecBytes(Even(4, per, 2), inlineMax, false) < U64
    ensures LayoutFor(2, RecBytes(Even(4, per, 2), inlineMax, false), fenceN, blob).Some?
  {
    var len := RecLen(Item(4, per), inlineMax, false);
    assert len <= 28 + per + 3;
    EvenBytes(4, per, 2, inlineMax, false, len);
    CapIs(2);
  }

  /** The list's own reserve has a table of one block. */
  lemma {:induction false} OneOverNeeds(inlineMax: nat, size: nat, target: nat, compact: bool)
    requires 0 < inlineMax && inlineMax + 100 < U32 && size > inlineMax + 1 && target > 0
    ensures var items, n := OneOver(inlineMax), inlineMax + 1;
      var exact := WholeReserve(items, inlineMax, size, compact, target);
      Meets(items, 2, 4, n, n) && Plannable(items, inlineMax, compact) && exact.Some? && exact.value.table == BlockTableLen(1)
  {
    OneOverIs(inlineMax, size, compact);
    CapIs(2);
  }

  /** The bound's has a table of none. */
  lemma {:induction false} OneOverBound(inlineMax: nat, size: nat, target: nat, per: nat)
    requires 0 < inlineMax && inlineMax + 100 < U32 && size > 2 * (inlineMax + 1) && target > 0
    requires per == PerKey(2, inlineMax + 1, inlineMax + 1) && 0 < per <= inlineMax && 2 * per <= inlineMax + 2
    ensures var r := TotalsReserve(2, 4, inlineMax + 1, inlineMax + 1, size, inlineMax, target);
      r.Some? && r.value.table == BlockTableLen(0)
  {
    EvenBlocks(per, inlineMax, size);
    WorstIsOne(inlineMax + 1, size);
    var stride := FenceStride(2, target);
    var fenceN := DivCeil(2, stride);
    EvenLayout(per, inlineMax, BlobOf(Even(4, per, 2), stride, fenceN), fenceN);
  }

  lemma {:induction false} PerKeyOfTwo(n: nat) returns (per: nat)
    requires n > 1
    ensures per == PerKey(2, n, n) && 0 < per < n && 2 * per <= n + 1
  {
    per := PerKey(2, n, n);
  }

  /** Two keys, of either form of record: the even shape goes inline and needs no block, and the list needs one. */
  lemma {:induction false} TableMisses(inlineMax: nat, size: nat, target: nat, compact: bool)
    requires 0 < inlineMax && inlineMax + 100 < U32 && size > 2 * (inlineMax + 1) && target > 0
    ensures var items, n := OneOver(inlineMax), inlineMax + 1;
      var r, exact := TotalsReserve(2, 4, n, n, size, inlineMax, target), WholeReserve(items, inlineMax, size, compact, target);
      && Meets(items, 2, 4, n, n) && Plannable(items, inlineMax, compact)
      && r.Some? && exact.Some? && r.value.table == BlockTableLen(0) && exact.value.table == BlockTableLen(1)
      && !Bounds(items, 4, n, n, size, inlineMax, compact, target)
  {
    var per := PerKeyOfTwo(inlineMax + 1);
    OneOverNeeds(inlineMax, size, target, compact);
    OneOverBound(inlineMax, size, target, per);
  }

  lemma {:induction false} WorstIsOne(n: nat, size: nat)
    requires 0 < n && size > 2 * n
    ensures WorstBlocks(2, n, n, size) == 1
  {
    var c := DivCeil(n, size - n);
    AtLeastTimes(size - n, c);
  }

  lemma {:induction false} AtLeastTimes(w: nat, c: nat)
    ensures c > 1 ==> w * (c - 1) >= w
  {
    if c > 1 { MulStep(w, c - 2); }
  }

  /** The totals bound every list exactly where inlining is off. */
  lemma {:induction false} BoundsWhereNoneInline(size: nat, inlineMax: nat, target: nat)
    requires target > 0
    ensures inlineMax == 0 <==> forall items, maxKey, maxRun, runBytes, compact ::
      Bounds(items, maxKey, maxRun, runBytes, size, inlineMax, compact, target)
  {
    if inlineMax == 0 {
      forall items, maxKey, maxRun, runBytes, compact
        ensures Bounds(items, maxKey, maxRun, runBytes, size, inlineMax, compact, target)
      {
        if Meets(items, |items|, maxKey, maxRun, runBytes) && TotalsReserve(|items|, maxKey, maxRun, runBytes, size, 0, target).Some? {
          TotalsBound(items, maxKey, maxRun, runBytes, size, target, compact);
        }
      }
    } else if inlineMax <= 4 {
      LongRunMisses(inlineMax, size, target);
    } else {
      PaddingMisses(inlineMax, size, target);
    }
  }
}
