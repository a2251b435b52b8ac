/** How far a reserve can be from what is needed: the checksum row's alignment, and the bound from totals alone. */
module ReserveBound {
  import opened Wrappers
  import opened Runs
  import opened Records
  import opened HashTable
  import opened FenceSeek
  import opened FlatParse
  import opened FlatWrite
  import opened ReservePlan
  import opened Chunked

  // ---------------------------------------------------------------- the row

  lemma {:induction false} ChunksMono(a: nat, b: nat, cs: nat)
    requires cs > 0 && a <= b
    ensures Chunks(a, cs) <= Chunks(b, cs)
    decreases b
  {
    if a > cs { ChunksMono(a - cs, b - cs, cs); }
  }

  lemma {:induction false} ChunksMore(a: nat, cs: nat)
    requires cs > 0
    ensures Chunks(a + cs, cs) == Chunks(a, cs) + 1
  {}

  /** A row taken at the worst alignment is never short for any, and at most one piece over. */
  lemma {:induction false} RowCovers(len: nat, base: nat)
    ensures RowLen(len, base) <= RowLen(len, PAGE - 1) <= RowLen(len, base) + 4
  {
    var b := base % PAGE;
    assert (PAGE - 1) % PAGE == PAGE - 1;
    ChunksMono(b + len, PAGE - 1 + len, PAGE);
    ChunksMono(PAGE - 1 + len, b + len + PAGE, PAGE);
    ChunksMore(b + len, PAGE);
  }

  /** A streamed section is no more than four bytes longer than one laid out whole. */
  lemma {:induction false} StreamedTotal(n: nat, recBytes: nat, fenceN: nat, blobLen: nat, cap: nat, l: Layout)
    requires SectionLayout(n, recBytes, fenceN, blobLen, 0, false, cap) == Some(l) && recBytes % 4 == 0
    ensures StreamedPlaces(n, recBytes, FenceOffsLen(fenceN) + blobLen, cap).hash.hi <= l.total + 4
  {
    var fence := FenceOffsLen(fenceN) + blobLen;
    assert AlignUp(HEADER + recBytes) == HEADER + recBytes;
    assert (8 * cap) % 8 == 0;
    Shuffle(n, recBytes, fence, cap);
  }

  lemma {:induction false} Shuffle(n: nat, recBytes: nat, fence: nat, cap: nat)
    requires recBytes % 4 == 0
    ensures AlignTo8(AlignUp(HEADER + recBytes + fence) + 4 * n) + SLOT * cap
         <= AlignUp(HEADER + cap * SLOT + 4 * n + fence) + recBytes + 4
  {
    var a, b := AlignUp(HEADER + recBytes + fence), AlignUp(HEADER + cap * SLOT + 4 * n + fence);
    assert a == AlignUp(fence) + HEADER + recBytes;
    assert b == AlignUp(fence) + HEADER + cap * SLOT + 4 * n;
  }

  /** So the row is never short for a streamed section either, wherever an aligned one lands. */
  lemma {:induction false} StreamedRow(len: nat, total: nat, base: nat)
    requires len <= total + 4 && base % 8 == 0
    ensures RowLen(len, base) <= RowLen(total, PAGE - 1)
  {
    assert base % PAGE <= PAGE - 8;
    assert (PAGE - 1) % PAGE == PAGE - 1;
    ChunksMono(base % PAGE + len, PAGE - 1 + total, PAGE);
  }

  // ---------------------------------------------------------------- the bytes of a reserve

  function Align8(n: nat): nat { DivCeil(n, 8) * 8 }

  /** Four pieces laid end to end from eight-aligned starts. */
  function Fits(table: nat, row: nat, fence: nat, dir: nat): nat {
    var at := Align8(Align8(Align8(table) + row) + fence) + dir;
    if at > table + 8 then at else table + 8
  }

  function ReserveBytes(r: Reserve): nat { Fits(r.table, r.row, r.fence, r.directory) }

  lemma {:induction false} Align8Mono(a: nat, b: nat)
    requires a <= b
    ensures Align8(a) <= Align8(b)
  {}

  /** No piece smaller makes no reserve smaller. */
  ghost predicate NoLess(a: Reserve, b: Reserve) {
    a.table >= b.table && a.row >= b.row && a.fence >= b.fence && a.directory >= b.directory
  }

  lemma {:induction false} CoverHolds(a: Reserve, b: Reserve)
    requires NoLess(a, b)
    ensures ReserveBytes(a) >= ReserveBytes(b)
  {
    Align8Mono(b.table, a.table);
    Align8Mono(Align8(b.table) + b.row, Align8(a.table) + a.row);
    Align8Mono(Align8(Align8(b.table) + b.row) + b.fence, Align8(Align8(a.table) + a.row) + a.fence);
  }

  /** Larger totals of as many keys take a larger reserve. */
  lemma {:induction false} ReserveMono(n: nat, fenceN: nat, recA: nat, blobA: nat, blocksA: nat, recB: nat, blobB: nat, blocksB: nat)
    requires recA <= recB && blobA <= blobB && blocksA <= blocksB
    requires ReserveOf(n, recB, fenceN, blobB, blocksB).Some?
    ensures ReserveOf(n, recA, fenceN, blobA, blocksA).Some?
    ensures NoLess(ReserveOf(n, recB, fenceN, blobB, blocksB).value, ReserveOf(n, recA, fenceN, blobA, blocksA).value)
  {
    var a, b := LayoutFor(n, recA, fenceN, blobA).value, LayoutFor(n, recB, fenceN, blobB).value;
    assert a.fenceOffsOff == b.fenceOffsOff && a.recsOff <= b.recsOff && a.total <= b.total;
    assert (PAGE - 1) % PAGE == PAGE - 1;
    ChunksMono(PAGE - 1 + a.total, PAGE - 1 + b.total, PAGE);
  }

  // ---------------------------------------------------------------- from_totals

  /** A list within its totals. */
  ghost predicate Meets(items: seq<Item>, keys: nat, maxKey: nat, maxRun: nat, runBytes: nat) {
    && |items| == keys && Total(RunsOf(items)) == runBytes
    && forall i :: 0 <= i < |items| ==> items[i].klen <= maxKey && items[i].run <= maxRun
  }

  function RunsOf(items: seq<Item>): (rs: seq<nat>)
    ensures |rs| == |items|
  {
    seq(|items|, i requires 0 <= i < |items| => items[i].run)
  }

  /** `keys` of one shape. */
  function Even(klen: nat, run: nat, keys: nat): (items: seq<Item>)
    ensures |items| == keys
  {
    seq(keys, i => Item(klen, run))
  }

  function PerKey(keys: nat, maxRun: nat, runBytes: nat): nat
    requires keys > 0
  {
    var even := DivCeil(runBytes, keys);
    var one := if even > 1 then even else 1;
    if one < maxRun then one else maxRun
  }

  function WorstBlocks(keys: nat, maxRun: nat, runBytes: nat, size: nat): nat {
    if maxRun >= size then keys
    else
      var b := DivCeil(runBytes, size - maxRun);
      if b < keys then b else keys
  }

  /** With nothing inline, every run reaches a block. */
  lemma {:induction false} AllInBlocks(items: seq<Item>)
    ensures BlockRuns(items, 0) == RunsOf(items)
  {
    if items != [] {
      AllInBlocks(items[..|items| - 1]);
      assert RunsOf(items) == RunsOf(items[..|items| - 1]) + [items[|items| - 1].run];
    }
  }

  /** No list within its totals is cut into more blocks than the worst count. */
  lemma {:induction false} WorstHolds(items: seq<Item>, keys: nat, maxKey: nat, maxRun: nat, runBytes: nat, size: nat)
    requires Meets(items, keys, maxKey, maxRun, runBytes)
    ensures BlockCount(BlockRuns(items, 0), size) <= WorstBlocks(keys, maxRun, runBytes, size)
  {
    AllInBlocks(items);
    OneEach(RunsOf(items), size);
    if maxRun < size { BytesBound(RunsOf(items), size, maxRun); }
  }

  lemma {:induction false} AlignMono(a: nat, b: nat)
    requires a <= b
    ensures AlignUp(a) <= AlignUp(b)
  {}

  /** The record bytes of a list are no more than those of as many keys of the longest length, nothing inline. */
  lemma {:induction false} RecsBound(items: seq<Item>, maxKey: nat, run: nat, compact: bool, n: nat)
    requires forall i :: 0 <= i < |items| ==> items[i].klen <= maxKey
    requires n == |items|
    ensures RecBytes(items, 0, compact) <= RecBytes(Even(maxKey, run, n), 0, false)
  {
    if items != [] {
      var even := Even(maxKey, run, n);
      RecsBound(items[..n - 1], maxKey, run, compact, n - 1);
      assert even[..n - 1] == Even(maxKey, run, n - 1);
      AlignMono(4 + items[n - 1].klen, 4 + maxKey);
    }
  }

  /** And so is the fence's blob. */
  lemma {:induction false} BlobBound(items: seq<Item>, maxKey: nat, run: nat, stride: nat, k: nat)
    requires stride > 0 && k <= DivCeil(|items|, stride)
    requires forall i :: 0 <= i < |items| ==> items[i].klen <= maxKey
    ensures BlobOf(items, stride, k) <= BlobOf(Even(maxKey, run, |items|), stride, k)
    decreases k
  {
    if k > 0 {
      RankWithin(k - 1, |items|, stride);
      BlobBound(items, maxKey, run, stride, k - 1);
    }
  }

  /** What `from_totals` answers: the reserve of the even shape, its table widened to the worst count of blocks. */
  ghost function TotalsReserve(keys: nat, maxKey: nat, maxRun: nat, runBytes: nat, size: nat, inlineMax: nat, target: nat): Option<Reserve>
    requires target > 0
  {
    if keys == 0 then WholeReserve([], inlineMax, size, true, target)
    else
      var per := PerKey(keys, maxRun, runBytes);
      var evens := Even(maxKey, per, keys);
      var need := if Plannable(evens, inlineMax, false) then WholeReserve(evens, inlineMax, size, false, target) else None;
      if need.None? then None else Some(need.value.(table := Widened(need.value.table, keys, maxRun, runBytes, size, per)))
  }

  ghost function Widened(table: nat, keys: nat, maxRun: nat, runBytes: nat, size: nat, per: nat): nat {
    var worst := WorstBlocks(keys, maxRun, runBytes, size);
    if worst > BlockCount(seq(keys, i => per), size) then BlockTableLen(worst) else table
  }

  /** `from_totals`: from the totals alone. */
  method FromTotals(keys: nat, maxKey: nat, maxRun: nat, runBytes: nat, size: nat, inlineMax: nat, target: nat)
    returns (r: Option<Reserve>)
    requires target > 0
    ensures r == TotalsReserve(keys, maxKey, maxRun, runBytes, size, inlineMax, target)
  {
    if keys == 0 {
      r := ForLengths([], size, inlineMax, true, target);
      return;
    }
    var per := PerKey(keys, maxRun, runBytes);
    var need := ForLengths(Even(maxKey, per, keys), size, inlineMax, false, target);
    if need.None? {
      return None;
    }
    var worst := WorstBlocks(keys, maxRun, runBytes, size);
    var even := BlocksForEven(per, keys, size);
    r := Some(need.value.(table := if worst > even then BlockTableLen(worst) else need.value.table));
  }

  /**
   With nothing inline, an upper bound on the reserve of any list that meets the totals, piece by piece,
   whenever there is an answer.
   */
  lemma {:induction false} TotalsBound(items: seq<Item>, maxKey: nat, maxRun: nat, runBytes: nat, size: nat, target: nat, compact: bool)
    requires target > 0 && Meets(items, |items|, maxKey, maxRun, runBytes)
    requires TotalsReserve(|items|, maxKey, maxRun, runBytes, size, 0, target).Some?
    ensures var exact, r := WholeReserve(items, 0, size, compact, target), TotalsReserve(|items|, maxKey, maxRun, runBytes, size, 0, target);
      exact.Some? && NoLess(r.value, exact.value) && ReserveBytes(r.value) >= ReserveBytes(exact.value)
  {
    var keys, r := |items|, TotalsReserve(|items|, maxKey, maxRun, runBytes, size, 0, target).value;
    if keys == 0 {
      assert items == [] && RecBytes(items, 0, compact) == RecBytes(items, 0, true);
      CoverHolds(r, r);
    } else {
      var per := PerKey(keys, maxRun, runBytes);
      AllInBlocks(Even(maxKey, per, keys));
      EvenRuns(maxKey, per, keys);
      BoundHolds(items, keys, maxKey, maxRun, runBytes, size, target, compact, per, r);
    }
  }

  lemma {:induction false} EvenRuns(klen: nat, run: nat, keys: nat)
    ensures RunsOf(Even(klen, run, keys)) == seq(keys, i => run)
  {}

  /** `blocks_for` over as many runs of one length. */
  method BlocksForEven(run: nat, keys: nat, size: nat) returns (n: nat)
    ensures n == BlockCount(seq(keys, i => run), size)
  {
    var c := Cut(0, 0);
    var i := 0;
    while i < keys
      invariant i <= keys && c == CutAll(seq(i, k => run), size)
    {
      assert seq(i + 1, k => run)[..i] == seq(i, k => run);
      c := Step(c, run, size);
      i := i + 1;
    }
    n := BlocksOf(c);
  }

  lemma {:induction false} BoundHolds(items: seq<Item>, keys: nat, maxKey: nat, maxRun: nat, runBytes: nat, size: nat, target: nat,
    compact: bool, per: nat, r: Reserve)
    requires target > 0 && keys > 0 && Meets(items, keys, maxKey, maxRun, runBytes)
    requires WholeReserve(Even(maxKey, per, keys), 0, size, false, target).Some?
    requires var need := WholeReserve(Even(maxKey, per, keys), 0, size, false, target).value;
      var worst := WorstBlocks(keys, maxRun, runBytes, size);
      var even := BlockCount(BlockRuns(Even(maxKey, per, keys), 0), size);
      r == need.(table := if worst > even then BlockTableLen(worst) else need.table)
    ensures var exact := WholeReserve(items, 0, size, compact, target);
      exact.Some? && NoLess(r, exact.value) && ReserveBytes(r) >= ReserveBytes(exact.value)
  {
    var stride := FenceStride(keys, target);
    var fenceN, evens := DivCeil(keys, stride), Even(maxKey, per, keys);
    RecsBound(items, maxKey, per, compact, keys);
    BlobBound(items, maxKey, per, stride, fenceN);
    WorstHolds(items, keys, maxKey, maxRun, runBytes, size);
    var blocks := BlockCount(BlockRuns(items, 0), size);
    var even := BlockCount(BlockRuns(evens, 0), size);
    var worst := WorstBlocks(keys, maxRun, runBytes, size);
    var most := if worst > even then worst else even;
    ReserveMono(keys, fenceN, RecBytes(items, 0, compact), BlobOf(items, stride, fenceN), blocks,
      RecBytes(evens, 0, false), BlobOf(evens, stride, fenceN), most);
    CoverHolds(r, WholeReserve(items, 0, size, compact, target).value);
  }
}
