/**
 What a segment's head reserve needs, worked out a key at a time.

 The planner keeps totals and one key length in sixteen; it is proved against the same sums over the
 whole list.
 */
module ReservePlan {
  import opened Bytes
  import opened Wrappers
  import opened Varint
  import opened Runs
  import opened Records
  import opened HashTable
  import opened FenceSeek
  import opened FlatWrite
  import Pieces

  const MAX_RUN: nat := U32 - 1 - 8
  const PAGE: nat := 16384
  const BLK_HEADER: nat := 16
  const BLK_ENTRY: nat := 32
  const CRC_ROW: nat := 64

  // ---------------------------------------------------------------- a run's length

  function LensOf(vs: seq<bytes>): (ls: seq<nat>)
    ensures |ls| == |vs|
  {
    seq(|vs|, i requires 0 <= i < |vs| => |vs[i]|)
  }

  lemma {:induction false} WidthByLens(vs: seq<bytes>)
    ensures var ls := LensOf(vs);
      OneWidth(vs) <==> ls != [] && ls[0] > 0 && forall k :: 0 <= k < |ls| ==> ls[k] == ls[0]
  {
    var ls := LensOf(vs);
    assert forall k :: 0 <= k < |vs| ==> ls[k] == |vs[k]|;
  }

  lemma {:induction false} PrefixedLength(vs: seq<bytes>, i: nat)
    requires i < |vs|
    ensures |AllPrefixed(vs[..i + 1])| == |AllPrefixed(vs[..i])| + |Uvarint(|vs[i]|)| + |vs[i]|
  {
    PrefixedSnoc(vs[..i], vs[i]);
    assert vs[..i + 1] == vs[..i] + [vs[i]];
  }

  /** `run_len`: exactly the bytes the values encode to, from their lengths alone. */
  method RunLen(lens: seq<nat>, ghost vs: seq<bytes>) returns (n: nat)
    requires lens == LensOf(vs)
    ensures n == |RunOf(vs)|
  {
    var fixed := AllOneWidth(lens);
    WidthByLens(vs);
    if fixed {
      ConcatLength(vs, |vs[0]|);
      return |lens| * lens[0];
    }
    n := 0;
    var i := 0;
    assert vs[..0] == [];
    while i < |lens|
      invariant i <= |lens| && n == |AllPrefixed(vs[..i])|
    {
      PrefixedLength(vs, i);
      var u := UvarintLen(lens[i]);
      n := n + u + lens[i];
      i := i + 1;
    }
    assert vs[..i] == vs;
  }

  // ---------------------------------------------------------------- the cut into blocks

  /** What the cut has closed, and what it has staged. */
  datatype Cut = Cut(closed: nat, staged: nat)

  /** One run through the cut: too long for the block being filled, it leaves that block and begins another. */
  function Step(c: Cut, n: nat, size: nat): Cut {
    var d := if c.staged != 0 && c.staged + n > size then Cut(c.closed + 1, 0) else c;
    if d.staged + n >= size then Cut(d.closed + 1, 0) else Cut(d.closed, d.staged + n)
  }

  function CutAll(runs: seq<nat>, size: nat): Cut {
    if runs == [] then Cut(0, 0) else Step(CutAll(runs[..|runs| - 1], size), runs[|runs| - 1], size)
  }

  function BlocksOf(c: Cut): nat { c.closed + if c.staged != 0 then 1 else 0 }

  /** How many blocks the writer's greedy rule cuts a list of runs into. */
  function BlockCount(runs: seq<nat>, size: nat): nat { BlocksOf(CutAll(runs, size)) }

  /** What is staged always fits: below the block size, or nothing. */
  lemma {:induction false} StagedFits(runs: seq<nat>, size: nat)
    ensures CutAll(runs, size).staged == 0 || CutAll(runs, size).staged < size
  {
    if runs != [] { StagedFits(runs[..|runs| - 1], size); }
  }

  function Total(ns: seq<nat>): nat {
    if ns == [] then 0 else Total(ns[..|ns| - 1]) + ns[|ns| - 1]
  }

  ghost predicate AtMost(ns: seq<nat>, m: nat) { forall i :: 0 <= i < |ns| ==> ns[i] <= m }

  /** No more blocks than runs. */
  lemma {:induction false} OneEach(runs: seq<nat>, size: nat)
    ensures BlockCount(runs, size) <= |runs|
  {
    if runs != [] { OneEach(runs[..|runs| - 1], size); }
  }

  /** Every block the cut closes holds more than the size less the longest run. */
  lemma {:induction false} ClosedFull(runs: seq<nat>, size: nat, longest: nat)
    requires longest < size && AtMost(runs, longest)
    ensures var c := CutAll(runs, size); (size - longest) * c.closed + c.staged <= Total(runs)
  {
    if runs != [] {
      var front, n := runs[..|runs| - 1], runs[|runs| - 1];
      ClosedFull(front, size, longest);
      var c := CutAll(front, size);
      MulStep(size - longest, c.closed);
      MulStep(size - longest, c.closed + 1);
      StagedFits(front, size);
    }
  }

  /** So there are no more blocks than the bytes allow. */
  lemma {:induction false} BytesBound(runs: seq<nat>, size: nat, longest: nat)
    requires longest < size && AtMost(runs, longest)
    ensures BlockCount(runs, size) <= DivCeil(Total(runs), size - longest)
  {
    var c, d, total := CutAll(runs, size), size - longest, Total(runs);
    ClosedFull(runs, size, longest);
    AtLeastQuotient(c.closed, c.staged, d, total);
  }

  lemma {:induction false} AtLeastQuotient(closed: nat, staged: nat, d: nat, total: nat)
    requires d > 0 && d * closed + staged <= total
    ensures closed + (if staged != 0 then 1 else 0) <= DivCeil(total, d)
  {
    var q := DivCeil(total, d);
    if closed > q { Scaled(q + 1, closed, d); MulStep(d, q); }
    if staged != 0 && closed >= q { Scaled(q, closed, d); }
  }

  // ---------------------------------------------------------------- the whole list

  /** A key to be written: its length, and its run's. */
  datatype Item = Item(klen: nat, run: nat)

  predicate Writable(i: Item) { i.klen < U16 && i.run <= MAX_RUN }

  predicate Inlined(i: Item, inlineMax: nat) { inlineMax > 0 && i.run <= inlineMax }

  function RecLen(i: Item, inlineMax: nat, compact: bool): nat {
    SegmentRecordLen(i.klen, i.run, Inlined(i, inlineMax), compact)
  }

  function RecBytes(items: seq<Item>, inlineMax: nat, compact: bool): nat {
    if items == [] then 0
    else RecBytes(items[..|items| - 1], inlineMax, compact) + RecLen(items[|items| - 1], inlineMax, compact)
  }

  /** The runs that reach a block, in order. */
  function BlockRuns(items: seq<Item>, inlineMax: nat): seq<nat> {
    if items == [] then []
    else
      var last := items[|items| - 1];
      BlockRuns(items[..|items| - 1], inlineMax) + if Inlined(last, inlineMax) then [] else [last.run]
  }

  /** The fence's blob over the whole list: every stride-th key's length. */
  function BlobOf(items: seq<Item>, stride: nat, k: nat): nat
    requires stride > 0 && k <= DivCeil(|items|, stride)
    decreases k
  {
    if k == 0 then 0
    else
      RankWithin(k - 1, |items|, stride);
      BlobOf(items, stride, k - 1) + items[RankOf(k - 1, stride)].klen
  }

  datatype Reserve = Reserve(table: nat, row: nat, fence: nat, directory: nat)

  function BlockTableLen(blocks: nat): nat { BLK_HEADER + blocks * BLK_ENTRY + blocks * CRC_ROW }

  function RowLen(len: nat, base: nat): nat { 4 * Pieces.PieceCount(len, PAGE, base) }

  function LayoutFor(n: nat, recBytes: nat, fenceN: nat, blobLen: nat): Option<Layout> {
    var cap := HashCap(n);
    if cap.None? then None else SectionLayout(n, recBytes, fenceN, blobLen, 0, false, cap.value)
  }

  /** The reserve of totals: each piece from the section's own layout. */
  function ReserveOf(n: nat, recBytes: nat, fenceN: nat, blobLen: nat, blocks: nat): Option<Reserve> {
    var l := LayoutFor(n, recBytes, fenceN, blobLen);
    if l.None? then None
    else
      Some(Reserve(BlockTableLen(blocks), RowLen(l.value.total, PAGE - 1),
                   if fenceN == 0 then 0 else l.value.recsOff - l.value.fenceOffsOff, n * 4))
  }

  ghost predicate AllWritable(items: seq<Item>) { forall i :: 0 <= i < |items| ==> Writable(items[i]) }

  /** The reserve of a whole list, from every key's length and every run's. */
  function WholeReserve(items: seq<Item>, inlineMax: nat, size: nat, compact: bool, target: nat): Option<Reserve>
    requires target > 0
  {
    var stride := FenceStride(|items|, target);
    var fenceN := DivCeil(|items|, stride);
    ReserveOf(|items|, RecBytes(items, inlineMax, compact), fenceN, BlobOf(items, stride, fenceN),
      BlockCount(BlockRuns(items, inlineMax), size))
  }

  // ---------------------------------------------------------------- the planner

  lemma {:induction false} PowerSixteenth(s: nat)
    requires PowerOfTwo(s) && s >= 16
    ensures s % 16 == 0
  {
    if s > 16 {
      Halves(s);
      assert PowerOfTwo(s / 2);
      Eighth(s / 2);
    }
  }

  lemma {:induction false} Halves(s: nat)
    requires PowerOfTwo(s) && s > 16
    ensures s % 2 == 0 && PowerOfTwo(s / 2) && s / 2 > 8
  {}

  lemma {:induction false} Eighth(s: nat)
    requires PowerOfTwo(s) && s > 8
    ensures s % 8 == 0
  {
    assert s % 2 == 0 && PowerOfTwo(s / 2) && s / 2 > 4;
    assert (s / 2) % 2 == 0 && PowerOfTwo(s / 2 / 2) && s / 2 / 2 > 2;
    assert (s / 2 / 2) % 2 == 0;
  }

  /** Every sixteenth key's length. */
  ghost predicate Sampling(sampled: seq<nat>, items: seq<Item>) {
    && |sampled| == DivCeil(|items|, FENCE_MIN_STRIDE)
    && forall k :: 0 <= k < |sampled| ==> FENCE_MIN_STRIDE * k < |items| && sampled[k] == items[FENCE_MIN_STRIDE * k].klen
  }

  lemma {:induction false} SampleNext(sampled: seq<nat>, items: seq<Item>, item: Item)
    requires Sampling(sampled, items)
    ensures Sampling(if |items| % FENCE_MIN_STRIDE == 0 then sampled + [item.klen] else sampled, items + [item])
  {
    var next := if |items| % FENCE_MIN_STRIDE == 0 then sampled + [item.klen] else sampled;
    forall k | 0 <= k < |next|
      ensures FENCE_MIN_STRIDE * k < |items| + 1 && next[k] == (items + [item])[FENCE_MIN_STRIDE * k].klen
    {
      if k < |sampled| { assert next[k] == sampled[k]; }
    }
  }

  /** A stride is a power of two from sixteen up, so what the fence samples was kept. */
  lemma {:induction false} SampleAt(items: seq<Item>, sampled: seq<nat>, target: nat, i: nat)
    requires target > 0 && Sampling(sampled, items) && i < DivCeil(|items|, FenceStride(|items|, target))
    ensures var at := RankOf(i, FenceStride(|items|, target));
      at < |items| && at / FENCE_MIN_STRIDE < |sampled| && sampled[at / FENCE_MIN_STRIDE] == items[at].klen
  {
    var stride := FenceStride(|items|, target);
    StrideMeetsTarget(|items|, target);
    PowerSixteenth(stride);
    RankWithin(i, |items|, stride);
    Multiple(i, stride, FENCE_MIN_STRIDE);
  }

  lemma {:induction false} Multiple(i: nat, stride: nat, m: nat)
    requires m > 0 && stride % m == 0
    ensures RankOf(i, stride) % m == 0 && m * (RankOf(i, stride) / m) == RankOf(i, stride)
  {
    var q := stride / m;
    assert stride == m * q;
    assert stride * i == m * (q * i);
    ModUnique(stride * i, m, q * i, 0);
  }

  lemma {:induction false} SmallestStride(target: nat)
    requires target > 0
    ensures FenceStride(0, target) == FENCE_MIN_STRIDE
  {
    assert NextPowerOfTwo(1) == 1 && NextPowerOfTwo(2) == 2 && NextPowerOfTwo(4) == 4 && NextPowerOfTwo(8) == 8;
  }

  lemma {:induction false} ItemsSnoc(items: seq<Item>, item: Item, inlineMax: nat, compact: bool, size: nat)
    ensures var more := items + [item];
      && RecBytes(more, inlineMax, compact) == RecBytes(items, inlineMax, compact) + RecLen(item, inlineMax, compact)
      && CutAll(BlockRuns(more, inlineMax), size) ==
           (if Inlined(item, inlineMax) then CutAll(BlockRuns(items, inlineMax), size)
            else Step(CutAll(BlockRuns(items, inlineMax), size), item.run, size))
  {
    var more, runs := items + [item], BlockRuns(items, inlineMax);
    assert more[..|more| - 1] == items;
    if Inlined(item, inlineMax) {
      assert runs + [] == runs;
    } else {
      assert (runs + [item.run])[..|runs|] == runs;
    }
  }

  /** The input can be a segment. */
  ghost predicate Plannable(items: seq<Item>, inlineMax: nat, compact: bool) {
    AllWritable(items) && RecBytes(items, inlineMax, compact) < U64
  }

  /** The planner: the sums a list of keys has come to so far, and one key length in sixteen. */
  class Planner {
    const size: nat
    const inlineMax: nat
    const compact: bool
    const target: nat
    const sampleStride: nat
    var keys: nat
    var recBytes: nat
    var staged: nat
    var blocks: nat
    var sampled: seq<nat>
    var viable: bool

    constructor (size: nat, inlineMax: nat, compact: bool, target: nat)
      requires target > 0
      ensures this.size == size && this.inlineMax == inlineMax && this.compact == compact && this.target == target
      ensures Planned([])
    {
      SmallestStride(target);
      this.size, this.inlineMax, this.compact, this.target := size, inlineMax, compact, target;
      sampleStride := FenceStride(0, target);
      keys, recBytes, staged, blocks, sampled, viable := 0, 0, 0, 0, [], true;
    }

    /** The totals are the whole list's; the planner is viable exactly while the list can be a segment. */
    ghost predicate Planned(items: seq<Item>)
      reads this
    {
      && target > 0 && sampleStride == FENCE_MIN_STRIDE && viable == Plannable(items, inlineMax, compact)
      && (viable ==>
            && keys == |items| && recBytes == RecBytes(items, inlineMax, compact)
            && Cut(blocks, staged) == CutAll(BlockRuns(items, inlineMax), size) && Sampling(sampled, items))
    }

    lemma {:induction false} StaysUnplannable(items: seq<Item>, item: Item)
      ensures Plannable(items + [item], inlineMax, compact) <==>
        Plannable(items, inlineMax, compact) && Writable(item)
          && RecBytes(items, inlineMax, compact) + RecLen(item, inlineMax, compact) < U64
    {
      var more := items + [item];
      ItemsSnoc(items, item, inlineMax, compact, size);
      if AllWritable(more) {
        forall i | 0 <= i < |items| ensures Writable(items[i]) { assert more[i] == items[i]; }
        assert more[|items|] == item;
      }
    }

    /** One run through the cut. */
    method CutOne(n: nat)
      modifies this`staged, this`blocks
      ensures Cut(blocks, staged) == Step(Cut(old(blocks), old(staged)), n, size)
    {
      if staged != 0 && staged + n > size {
        blocks, staged := blocks + 1, 0;
      }
      staged := staged + n;
      if staged >= size {
        blocks, staged := blocks + 1, 0;
      }
    }

    /** One key, by its length and its run's. */
    method Push(klen: nat, run: nat, ghost items: seq<Item>)
      requires Planned(items)
      modifies this
      ensures Planned(items + [Item(klen, run)])
    {
      ghost var item := Item(klen, run);
      StaysUnplannable(items, item);
      ItemsSnoc(items, item, inlineMax, compact, size);
      if klen >= U16 || run > MAX_RUN {
        viable := false;
        return;
      }
      if viable { SampleNext(sampled, items, item); }
      if keys % sampleStride == 0 {
        sampled := sampled + [klen];
      }
      var inlined := inlineMax > 0 && run <= inlineMax;
      var n := recBytes + SegmentRecordLen(klen, run, inlined, compact);
      if n >= U64 {
        viable := false;
        return;
      }
      recBytes := n;
      if !inlined {
        CutOne(run);
      }
      keys := keys + 1;
    }

    /** The fence's blob, from the kept lengths. */
    method SampledBlob(stride: nat, fenceN: nat, ghost items: seq<Item>) returns (blob: nat)
      requires Planned(items) && viable && stride == FenceStride(|items|, target) && fenceN == DivCeil(|items|, stride)
      ensures stride > 0 && blob == BlobOf(items, stride, fenceN)
    {
      blob := 0;
      var i := 0;
      while i < fenceN
        invariant stride > 0 && i <= fenceN && blob == BlobOf(items, stride, i)
      {
        SampleAt(items, sampled, target, i);
        blob := blob + sampled[RankOf(i, stride) / sampleStride];
        i := i + 1;
      }
    }

    /** `finish`: the whole list's reserve; `None` for a list that cannot be a segment. */
    method Finish(ghost items: seq<Item>) returns (r: Option<Reserve>)
      requires Planned(items)
      ensures r == if Plannable(items, inlineMax, compact) then WholeReserve(items, inlineMax, size, compact, target) else None
    {
      if !viable {
        return None;
      }
      var stride := FenceStride(keys, target);
      var fenceN := DivCeil(keys, stride);
      var blob := SampledBlob(stride, fenceN, items);
      r := ReserveOf(keys, recBytes, fenceN, blob, blocks + if staged != 0 then 1 else 0);
    }
  }

  /** `for_lengths_as`: the planner over a list. */
  method ForLengths(items: seq<Item>, size: nat, inlineMax: nat, compact: bool, target: nat) returns (r: Option<Reserve>)
    requires target > 0
    ensures r == if Plannable(items, inlineMax, compact) then WholeReserve(items, inlineMax, size, compact, target) else None
  {
    var p := new Planner(size, inlineMax, compact, target);
    var i := 0;
    while i < |items|
      invariant i <= |items| && p.Planned(items[..i]) && fresh(p)
    {
      assert items[..i] + [Item(items[i].klen, items[i].run)] == items[..i + 1];
      p.Push(items[i].klen, items[i].run, items[..i]);
      i := i + 1;
    }
    assert items[..i] == items;
    r := p.Finish(items);
  }
}
