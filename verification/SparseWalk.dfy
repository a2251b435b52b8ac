/**
 Ranges of a dictionary read without the rest of it: two plans, and a walk that reads nothing they do
 not name.
 */
module SparseWalk {
  import opened Bytes
  import opened Wrappers
  import opened Records
  import opened RecordWalk
  import opened FlatHolds
  import opened FlatLayout
  import opened FenceSeek
  import opened BlobPlan
  import opened SparseCheck
  import P = Pieces

  /** What a sparse reader keeps of an index: where its regions lie in the section, and its row. */
  datatype Index = Index(off: nat, nkeys: nat, dirOff: nat, recsOff: nat, recsLen: nat, bump: nat,
                         row: Row, named: bool, dir: Option<seq<nat>>)

  /** The object holds the list in this index: its offsets by rank, its records in key order. */
  ghost predicate Indexed(x: Index, obj: bytes, rs: seq<Rec>, compact: bool) {
    && AllMade(rs, compact) && Ascending(KeysOf(rs)) && x.nkeys == |rs|
    && HasRecords(x, obj, rs, compact) && HasDirectory(x, obj, rs, compact) && HasRow(x, obj)
  }

  ghost predicate HasRecords(x: Index, obj: bytes, rs: seq<Rec>, compact: bool) {
    && x.recsLen == x.bump == |AllRecords(rs, compact)| < U32
    && x.off + x.recsOff + x.recsLen <= |obj| && obj[x.off + x.recsOff..x.off + x.recsOff + x.recsLen] == AllRecords(rs, compact)
  }

  ghost predicate HasDirectory(x: Index, obj: bytes, rs: seq<Rec>, compact: bool) {
    && x.off + x.dirOff + 4 * |rs| <= |obj|
    && obj[x.off + x.dirOff..x.off + x.dirOff + 4 * |rs|] == Words(Offsets(rs, compact), 4)
    && (x.dir.Some? ==> x.dir.value == Offsets(rs, compact))
  }

  /** The row is of this section, and where the section names one its regions lie in the content it covers. */
  ghost predicate HasRow(x: Index, obj: bytes) {
    && RowFits(x.row, obj) && x.row.content.off == x.off && (x.row.crcs != [] ==> x.named)
    && (x.named ==> x.off + x.dirOff + 4 * x.nkeys <= x.row.content.end && x.off + x.recsOff + x.bump <= x.row.content.end)
  }

  // ---------------------------------------------------------------- ranks

  /** The fence a reader narrows with; none, where it has none. */
  datatype FenceView = NoFence | FenceOf(key: nat -> Option<bytes>, n: nat, stride: nat)

  ghost predicate GoodFence(fv: FenceView, keys: seq<bytes>) {
    fv.FenceOf? ==> WritersFence(fv.key, fv.n, fv.stride, keys)
  }

  /** The ranks of a range: from the first not below `lo`, to the first not below `hi`. */
  ghost function UpperRank(keys: seq<bytes>, hi: Option<bytes>): (r: nat)
    requires Ascending(keys)
    ensures r <= |keys|
  {
    if hi.None? then |keys| else RankOfKey(keys, hi.value)
  }

  lemma {:induction false} SampledAscend(keys: seq<bytes>, stride: nat)
    requires Ascending(keys) && stride > 0
    ensures Ascending(Sampled(keys, stride))
  {
    var ks := Sampled(keys, stride);
    forall i, j | 0 <= i < j < |ks| ensures Below(ks[i], ks[j]) { RanksAscend(i, j, stride); }
  }

  lemma {:induction false} RanksAscend(i: nat, j: nat, stride: nat)
    requires i < j && stride > 0
    ensures RankOf(i, stride) < RankOf(j, stride)
    decreases j
  {
    RankStep(j, stride);
    if i < j - 1 { RanksAscend(i, j - 1, stride); }
  }

  /** The window a fence gives a query: what one binary search of its keys comes to. */
  ghost function WindowAt(stride: nat, keys: seq<bytes>, q: bytes): (w: (nat, nat))
    requires Ascending(keys) && stride > 0
  {
    SampledAscend(keys, stride);
    Stride(RankOfKey(Sampled(keys, stride), q), stride, |keys|)
  }

  /** The ranks a range's keys can occupy. */
  ghost function RangeRanks(fv: FenceView, keys: seq<bytes>, lo: bytes, hi: Option<bytes>): (nat, nat)
    requires GoodFence(fv, keys) && Ascending(keys)
  {
    if fv.NoFence? then (0, |keys|)
    else
      var r0 := WindowAt(fv.stride, keys, lo).0;
      (r0, Max(if hi.None? then |keys| else Min(WindowAt(fv.stride, keys, hi.value).1, |keys|), r0))
  }

  /** There is one place a query belongs among a writer's sampled keys. */
  lemma {:induction false} OneEntry(fv: FenceView, keys: seq<bytes>, q: bytes, at: nat)
    requires fv.FenceOf? && GoodFence(fv, keys) && Ascending(keys) && Entry(fv.key, fv.n, q, at)
    ensures Ascending(Sampled(keys, fv.stride)) && at == RankOfKey(Sampled(keys, fv.stride), q)
  {
    var ks := Sampled(keys, fv.stride);
    SampledAscend(keys, fv.stride);
    var r := RankOfKey(ks, q);
    assert forall i :: 0 <= i < fv.n ==> fv.key(i) == Some(ks[i]);
    forall i | 0 <= i < at ensures Below(ks[i], q) { SampledBefore(ks, q, i, at - 1); }
    forall i | at <= i < |ks| ensures !Below(ks[i], q) { SampledBefore(ks, q, at, i); }
    OneBound(ks, q, at, r);
  }

  lemma {:induction false} SampledBefore(ks: seq<bytes>, q: bytes, i: nat, j: nat)
    requires Ascending(ks) && i <= j < |ks|
    ensures Below(ks[j], q) ==> Below(ks[i], q)
  {
    if i < j && Below(ks[j], q) { BelowTransitive(ks[i], ks[j], q); }
  }

  lemma {:induction false} BelowBefore(ks: seq<bytes>, q: bytes, r: nat, i: nat)
    requires LowerBound(ks, q, 0, |ks|, r) && i < r
    ensures Below(ks[i], q)
  {}

  /** A query has one rank. */
  lemma {:induction false} OneBound(ks: seq<bytes>, q: bytes, r: nat, s: nat)
    requires LowerBound(ks, q, 0, |ks|, r) && LowerBound(ks, q, 0, |ks|, s)
    ensures r == s
  {
    if s < r { BelowBefore(ks, q, r, s); }
    if r < s { BelowBefore(ks, q, s, r); }
  }

  /** One end of a window: the answer is inside it. */
  method WindowOf(fv: FenceView, q: bytes, n: nat, ghost keys: seq<bytes>) returns (start: nat, end: nat)
    requires fv.FenceOf? && GoodFence(fv, keys) && Ascending(keys) && n == |keys|
    ensures start <= RankOfKey(keys, q) <= end <= n && end - start <= fv.stride
    ensures (start, end) == WindowAt(fv.stride, keys, q)
  {
    ghost var at;
    start, end, at := FenceWindow(fv.key, fv.n, fv.stride, n, q);
    WindowHolds(fv.key, fv.n, fv.stride, keys, q, at, RankOfKey(keys, q));
    OneEntry(fv, keys, q, at);
  }

  /** `rank_window`: ranks that hold every key of the range, and at most a stride more at either end. */
  method RankWindow(fv: FenceView, n: nat, lo: bytes, hi: Option<bytes>, ghost keys: seq<bytes>) returns (r0: nat, r1: nat)
    requires GoodFence(fv, keys) && Ascending(keys) && n == |keys|
    ensures (r0, r1) == RangeRanks(fv, keys, lo, hi)
    ensures r0 <= r1 <= n && r0 <= RankOfKey(keys, lo) && UpperRank(keys, hi) <= r1
    ensures fv.FenceOf? ==> RankOfKey(keys, lo) <= r0 + fv.stride
  {
    if fv.NoFence? {
      return 0, n;
    }
    var end;
    r0, end := WindowOf(fv, lo, n, keys);
    r1 := n;
    if hi.Some? {
      var start;
      start, r1 := WindowOf(fv, hi.value, n, keys);
      r1 := Min(r1, n);
    }
    r1 := Max(r1, r0);
  }

  // ---------------------------------------------------------------- the directory

  /** The entries a range needs: one a rank, and the next one's where there is one. */
  function EntriesOfRange(r0: nat, r1: nat, n: nat): nat
    requires r0 <= r1
  {
    r1 - r0 + if r1 < n then 1 else 0
  }

  function DirRange(x: Index, r0: nat, r1: nat): Range
    requires r0 <= r1
  {
    Range(x.off + x.dirOff + r0 * 4, EntriesOfRange(r0, r1, x.nkeys) * 4)
  }

  lemma {:induction false} WordAt(obj: bytes, from: nat, vs: seq<nat>, i: nat)
    requires from + 4 * |vs| <= |obj| && obj[from..from + 4 * |vs|] == Words(vs, 4) && i < |vs| && vs[i] < U32
    ensures LeNat(obj[from + 4 * i..from + 4 * i + 4]) == vs[i]
  {
    var at := 4 * i;
    SubSlice(obj, from, from + 4 * |vs|, at, at + 4);
    WordIn(vs, i, at);
  }

  lemma {:induction false} WordIn(vs: seq<nat>, i: nat, at: nat)
    requires i < |vs| && vs[i] < U32 && at == 4 * i
    ensures at + 4 <= |Words(vs, 4)| && LeNat(Words(vs, 4)[at..at + 4]) == vs[i]
  {
    assert Words(vs, 4) + [] == Words(vs, 4);
    FlatHolds.RegionWord(Words(vs, 4), vs, [], i, at);
  }

  /** The directory's words, as the object holds them from `from` on. */
  ghost predicate HoldsWords(obj: bytes, from: nat, vs: seq<nat>) {
    && from + 4 * |vs| <= |obj| && obj[from..from + 4 * |vs|] == Words(vs, 4)
    && forall i :: 0 <= i < |vs| ==> vs[i] < U32
  }

  lemma {:induction false} DirHolds(x: Index, obj: bytes, rs: seq<Rec>, compact: bool)
    requires HasDirectory(x, obj, rs, compact) && |AllRecords(rs, compact)| < U32
    ensures HoldsWords(obj, x.off + x.dirOff, Offsets(rs, compact))
  {
    OffsetsFit(rs, compact);
  }

  /** A slice of the directory is its words' own bytes. */
  lemma {:induction false} RawHolds(obj: bytes, from: nat, vs: seq<nat>, r0: nat, k: nat, raw: bytes)
    requires HoldsWords(obj, from, vs) && r0 + k <= |vs| && raw == obj[from + 4 * r0..from + 4 * r0 + 4 * k]
    ensures |raw| == 4 * k && forall i :: 0 <= i < k ==> LeNat(raw[4 * i..4 * i + 4]) == vs[r0..r0 + k][i]
  {
    forall i | 0 <= i < k ensures LeNat(raw[4 * i..4 * i + 4]) == vs[r0 + i] {
      WordAt(obj, from, vs, r0 + i);
      SubSlice(obj, from + 4 * r0, from + 4 * r0 + 4 * k, 4 * i, 4 * i + 4);
    }
  }

  /** `dir_slice`'s words. */
  method ReadWords(raw: bytes, k: nat, ghost vs: seq<nat>) returns (d: seq<nat>)
    requires |raw| == 4 * k && |vs| == k && forall i :: 0 <= i < k ==> LeNat(raw[4 * i..4 * i + 4]) == vs[i]
    ensures d == vs
  {
    d := [];
    var i := 0;
    while i < k
      invariant |d| == i <= k && d == vs[..i]
    {
      d := d + [LeNat(raw[4 * i..4 * i + 4])];
      i := i + 1;
    }
  }

  /** Where a range's pieces are read, they are read as its plan rounds it. */
  ghost predicate ReadsPlanned(x: Index, read: seq<Range>, r: Range)
    requires x.row.content.Valid()
  {
    var w := Round(x.row, x.named, r);
    read != [] ==> AllWithin(read, w.at, w.End())
  }

  /** A range of the section, inside the content where a row covers it. */
  ghost predicate InSection(x: Index, obj: bytes, r: Range) {
    HasRow(x, obj) && x.off <= r.at && r.End() <= |obj| && (x.named ==> r.End() <= x.row.content.end)
  }

  /** A checked read of one range of the section: the pieces that cover it, then the range itself. */
  method CheckedRead(c: Checker, x: Index, r: Range) returns (buf: Option<bytes>, read: seq<Range>)
    requires c.Sound() && InSection(x, c.obj, r) && c.row == x.row
    modifies c`verified
    ensures c.Sound() && ReadsPlanned(x, read, r)
    ensures buf.Some? ==> buf.value == c.obj[r.at..r.End()]
    ensures (forall p :: 0 <= p < |x.row.crcs| ==> Matches(x.row, c.obj, p)) ==> buf.Some?
  {
    RoundCovers(x.row, x.named, r);
    var ok;
    ok, read := c.VerifySpan(r.at - x.row.content.off, r.len);
    if x.row.crcs != [] && r.len > 0 { P.SamePages(x.row.content, r.at, r.End()); }
    if !ok {
      return None, read;
    }
    read := read + [r];
    buf := Some(c.obj[r.at..r.End()]);
  }

  lemma {:induction false} DirInside(x: Index, obj: bytes, rs: seq<Rec>, compact: bool, r0: nat, r1: nat)
    requires HasRow(x, obj) && HasDirectory(x, obj, rs, compact) && r0 <= r1 <= |rs| == x.nkeys
    ensures InSection(x, obj, DirRange(x, r0, r1))
  {}

  /** `dir_slice`: the offsets of a range's ranks, from memory or from the object, checked. */
  method DirSlice(c: Checker, x: Index, r0: nat, r1: nat, ghost rs: seq<Rec>, ghost compact: bool)
    returns (d: Option<seq<nat>>, read: seq<Range>)
    requires c.Sound() && Indexed(x, c.obj, rs, compact) && c.row == x.row && r0 <= r1 <= |rs|
    modifies c`verified
    ensures c.Sound()
    ensures d.Some? ==> d.value == Offsets(rs, compact)[r0..r0 + EntriesOfRange(r0, r1, |rs|)]
    ensures x.dir.Some? ==> read == []
    ensures ReadsPlanned(x, read, DirRange(x, r0, r1))
    ensures (forall p :: 0 <= p < |x.row.crcs| ==> Matches(x.row, c.obj, p)) ==> d.Some?
  {
    var k := EntriesOfRange(r0, r1, x.nkeys);
    read := [];
    if x.dir.Some? {
      return Some(x.dir.value[r0..r0 + k]), read;
    }
    DirInside(x, c.obj, rs, compact, r0, r1);
    var raw;
    raw, read := CheckedRead(c, x, DirRange(x, r0, r1));
    if raw.None? {
      return None, read;
    }
    DirHolds(x, c.obj, rs, compact);
    RawHolds(c.obj, x.off + x.dirOff, Offsets(rs, compact), r0, k, raw.value);
    var words := ReadWords(raw.value, k, Offsets(rs, compact)[r0..r0 + k]);
    d := Some(words);
  }

  // ---------------------------------------------------------------- the records

  lemma {:induction false} OffsAscendStrictly(rs: seq<Rec>, compact: bool, i: nat, j: nat)
    requires i < j <= |rs|
    ensures OffOf(rs, compact, i) < OffOf(rs, compact, j)
  {
    OffStep(rs, compact, i);
    ImageRoom(rs[i], compact);
    OffsAscend(rs, compact, i + 1, j);
  }

  /** Adjacent offsets ascend. */
  ghost predicate Rising(d: seq<nat>) { forall i :: 0 <= i < |d| - 1 ==> d[i] < d[i + 1] }

  method Monotone(d: seq<nat>) returns (up: bool)
    ensures up <==> Rising(d)
  {
    up := true;
    var i := 0;
    while i + 1 < |d| && up
      invariant if |d| == 0 then i == 0 else i < |d|
      invariant up <==> forall k :: 0 <= k < i ==> d[k] < d[k + 1]
    {
      up := d[i] < d[i + 1];
      i := i + 1;
    }
  }

  /** The least of a list. */
  method Least(d: seq<nat>) returns (m: nat)
    requires d != []
    ensures m in d && forall i :: 0 <= i < |d| ==> m <= d[i]
  {
    m := d[0];
    var i := 1;
    while i < |d|
      invariant 1 <= i <= |d| && m in d[..i] && forall k :: 0 <= k < i ==> m <= d[k]
    {
      if d[i] < m { m := d[i]; }
      i := i + 1;
    }
  }

  /** The bytes a range's records take, relative to the record region. */
  ghost function SpanOfRanks(rs: seq<Rec>, compact: bool, r0: nat, r1: nat): (nat, nat)
    requires r0 <= r1 <= |rs|
  {
    if r0 == r1 then (0, 0) else (OffOf(rs, compact, r0), OffOf(rs, compact, r1))
  }

  lemma {:induction false} WordOf(rs: seq<Rec>, compact: bool, r0: nat, r1: nat, d: seq<nat>, i: nat)
    requires r0 < r1 <= |rs| && d == Offsets(rs, compact)[r0..r0 + EntriesOfRange(r0, r1, |rs|)] && i < |d|
    ensures r0 + i < |rs| && d[i] == OffOf(rs, compact, r0 + i)
  {}

  /** The directory's words for a range ascend, and name where it starts and ends. */
  lemma {:induction false} WordsOfRange(rs: seq<Rec>, compact: bool, r0: nat, r1: nat, d: seq<nat>)
    requires r0 < r1 <= |rs| && d == Offsets(rs, compact)[r0..r0 + EntriesOfRange(r0, r1, |rs|)]
    ensures forall i :: 0 <= i < |d| - 1 ==> d[i] < d[i + 1]
    ensures d[0] == OffOf(rs, compact, r0)
    ensures OffOf(rs, compact, r1) == if r1 < |rs| then d[r1 - r0] else |AllRecords(rs, compact)|
    ensures OffOf(rs, compact, r0) < OffOf(rs, compact, r1) <= |AllRecords(rs, compact)|
  {
    forall i | 0 <= i < |d| - 1 ensures d[i] < d[i + 1] {
      WordOf(rs, compact, r0, r1, d, i);
      WordOf(rs, compact, r0, r1, d, i + 1);
      OffsAscendStrictly(rs, compact, r0 + i, r0 + i + 1);
    }
    WordOf(rs, compact, r0, r1, d, 0);
    if r1 < |rs| { WordOf(rs, compact, r0, r1, d, r1 - r0); }
    OffOfEnd(rs, compact);
    OffsAscendStrictly(rs, compact, r0, r1);
    OffsAscend(rs, compact, r1, |rs|);
  }

  /** A span inside the region's content. */
  function Contained(start: nat, end: nat, bump: nat): Option<(nat, nat)> {
    if end < start || end > bump then None else Some((start, end))
  }

  /** `record_span`: where a range's records lie; all the content past the lowest of them where they are out of order. */
  method RecordSpan(x: Index, r0: nat, r1: nat, d: seq<nat>) returns (span: Option<(nat, nat)>)
    requires r0 <= r1 <= x.nkeys && |d| == EntriesOfRange(r0, r1, x.nkeys)
    ensures r0 == r1 ==> span == Some((0, 0))
    ensures r0 < r1 && Rising(d) ==> span == Contained(d[0], if r1 < x.nkeys then d[r1 - r0] else x.recsLen, x.bump)
    ensures r0 < r1 && !Rising(d) && span.Some? ==>
      span.value.1 == x.bump && forall i :: 0 <= i < r1 - r0 ==> span.value.0 <= d[i]
  {
    if r1 == r0 {
      return Some((0, 0));
    }
    var up := Monotone(d);
    if up {
      return Contained(d[0], if r1 < x.nkeys then d[r1 - r0] else x.recsLen, x.bump);
    }
    var start := Least(d[..r1 - r0]);
    span := Contained(start, x.bump, x.bump);
  }

  lemma {:induction false} SpanIs(x: Index, obj: bytes, rs: seq<Rec>, compact: bool, r0: nat, r1: nat, d: seq<nat>)
    requires HasRecords(x, obj, rs, compact) && x.nkeys == |rs| && r0 < r1 <= |rs|
    requires d == Offsets(rs, compact)[r0..r0 + EntriesOfRange(r0, r1, |rs|)]
    ensures Rising(d)
    ensures Contained(d[0], if r1 < x.nkeys then d[r1 - r0] else x.recsLen, x.bump) == Some(SpanOfRanks(rs, compact, r0, r1))
  {
    WordsOfRange(rs, compact, r0, r1, d);
  }

  function RecordRange(x: Index, span: (nat, nat)): Range {
    Range(x.off + x.recsOff + span.0, if span.1 > span.0 then span.1 - span.0 else 0)
  }

  // ---------------------------------------------------------------- the plans

  /** A plan of one range: merged, and naming exactly the range rounded to pieces. */
  ghost predicate IsPlan(plan: seq<Range>, x: Index, r: Range)
    requires x.row.content.Valid()
  {
    Merged(plan) && forall b :: Covers(plan, b) <==> Round(x.row, x.named, r).Names(b)
  }

  /** `dictionary_plan`: the directory slice, rounded and merged; nothing where the directory is in memory. */
  method DictionaryPlan(x: Index, fv: FenceView, lo: bytes, hi: Option<bytes>, ghost rs: seq<Rec>, ghost compact: bool)
    returns (plan: seq<Range>)
    requires x.row.content.Valid() && x.nkeys == |rs| && Ascending(KeysOf(rs)) && GoodFence(fv, KeysOf(rs))
    ensures x.dir.Some? ==> plan == []
    ensures var (r0, r1) := RangeRanks(fv, KeysOf(rs), lo, hi);
      r0 <= r1 && (x.dir.None? ==> IsPlan(plan, x, DirRange(x, r0, r1)))
  {
    var a, z := RankWindow(fv, x.nkeys, lo, hi, KeysOf(rs));
    if x.dir.Some? {
      return [];
    }
    plan := PlanOne(Round(x.row, x.named, DirRange(x, a, z)));
  }

  /** One range as a plan. */
  method PlanOne(r: Range) returns (plan: seq<Range>)
    ensures Merged(plan) && forall b :: Covers(plan, b) <==> r.Names(b)
  {
    var v := new Ranges([r]);
    v.Merge();
    plan := v.v;
    forall b ensures Covers([r], b) <==> r.Names(b) {
      if r.Names(b) { assert [r][0].Names(b); }
    }
  }

  // ---------------------------------------------------------------- the walk

  lemma {:induction false} RecordsOfRange(rs: seq<Rec>, compact: bool, r0: nat, r1: nat, all: bytes)
    requires r0 <= r1 <= |rs| && all == AllRecords(rs, compact)
    ensures OffOf(rs, compact, r0) <= OffOf(rs, compact, r1) <= |all|
    ensures all[OffOf(rs, compact, r0)..OffOf(rs, compact, r1)] == AllRecords(rs[r0..r1], compact)
  {
    ghost var front := rs[..r1];
    assert front[..r0] == rs[..r0] && front[r0..] == rs[r0..r1];
    AllSplit(rs, compact, r1);
    AllSplit(front, compact, r0);
    Middle(AllRecords(rs[..r0], compact), AllRecords(rs[r0..r1], compact), AllRecords(rs[r1..], compact));
  }

  lemma {:induction false} Middle(a: bytes, b: bytes, c: bytes)
    ensures (a + b + c)[|a|..|a| + |b|] == b
  {}

  lemma {:induction false} OffInRange(rs: seq<Rec>, compact: bool, r0: nat, r1: nat, r: nat)
    requires r0 <= r <= r1 <= |rs|
    ensures OffOf(rs, compact, r) == OffOf(rs, compact, r0) + OffOf(rs[r0..r1], compact, r - r0)
  {
    AllSplit(rs[..r], compact, r0);
    assert rs[..r][..r0] == rs[..r0] && rs[..r][r0..] == rs[r0..r1][..r - r0];
  }

  /** A record parses where its offset puts it in the bytes read. */
  ghost predicate Placed(buf: bytes, base: nat, at: nat, r: Rec) {
    base <= at && exists len :: ParseRecord(buf, at - base) == Some(Parsed(r.key, r.exts, r.tail, len))
  }

  /** Each record of a range, in the range's own bytes. */
  ghost predicate AllPlaced(buf: bytes, base: nat, d: seq<nat>, part: seq<Rec>) {
    |d| >= |part| && forall i {:trigger Placed(buf, base, d[i], part[i])} :: 0 <= i < |part| ==> Placed(buf, base, d[i], part[i])
  }

  lemma {:induction false} PartPlaced(part: seq<Rec>, compact: bool, i: nat, buf: bytes, base: nat, at: nat)
    requires AllMade(part, compact) && i < |part| && buf == AllRecords(part, compact) && at == base + OffOf(part, compact, i)
    ensures Placed(buf, base, at, part[i])
  {
    assert buf == buf + [];
    FromOffset(part, compact, i, buf, []);
    assert Made(part[i], compact);
    ParsesBack(part[i], compact, buf, at - base, AllRecords(part[i + 1..], compact) + []);
  }

  lemma {:induction false} PartMade(rs: seq<Rec>, compact: bool, r0: nat, r1: nat)
    requires AllMade(rs, compact) && r0 <= r1 <= |rs|
    ensures AllMade(rs[r0..r1], compact)
  {
    forall i | 0 <= i < r1 - r0 ensures Made(rs[r0..r1][i], compact) { assert Made(rs[r0 + i], compact); }
  }

  lemma {:induction false} RangePlaced(rs: seq<Rec>, compact: bool, r0: nat, r1: nat, buf: bytes, base: nat, d: seq<nat>)
    requires AllMade(rs, compact) && r0 <= r1 <= |rs| && buf == AllRecords(rs[r0..r1], compact)
    requires base == OffOf(rs, compact, r0) && |d| >= r1 - r0
    requires forall i :: 0 <= i < r1 - r0 ==> d[i] == OffOf(rs, compact, r0 + i)
    ensures AllPlaced(buf, base, d, rs[r0..r1])
  {
    PartMade(rs, compact, r0, r1);
    forall i | 0 <= i < r1 - r0 ensures Placed(buf, base, d[i], rs[r0..r1][i]) {
      OffInRange(rs, compact, r0, r1, r0 + i);
      PartPlaced(rs[r0..r1], compact, i, buf, base, d[i]);
    }
  }

  datatype WalkError = BadPiece | OutOfRegion | BelowSpan | NotARecord | OutOfOrder

  /** A record at its place, as a walk over a range's bytes takes it. */
  method WalkRecord(buf: bytes, at: nat, base: nat, ghost rec: Rec) returns (e: Option<WalkError>, r: Rec)
    requires Placed(buf, base, at, rec)
    ensures e.None? && r == rec
  {
    r := Rec([], [], []);
    if at < base {
      return Some(BelowSpan), r;
    }
    var p := ParseRecord(buf, at - base);
    if p.None? {
      return Some(NotARecord), r;
    }
    e, r := None, Rec(p.value.key, p.value.exts, p.value.tail);
  }

  /** The record at a rank of the range. */
  method WalkNext(buf: bytes, d: seq<nat>, base: nat, i: nat, ghost part: seq<Rec>) returns (e: Option<WalkError>, r: Rec)
    requires AllPlaced(buf, base, d, part) && i < |part|
    ensures e.None? && r == part[i]
  {
    assert Placed(buf, base, d[i], part[i]);
    e, r := WalkRecord(buf, d[i], base, part[i]);
  }

  /** The records a range holds, up to as many as the caller takes. */
  ghost function Wanted(rs: seq<Rec>, lo: bytes, hi: Option<bytes>, take: nat): (w: seq<Rec>)
    requires Ascending(KeysOf(rs))
  {
    var a, b := RankOfKey(KeysOf(rs), lo), UpperRank(KeysOf(rs), hi);
    if a >= b then [] else rs[a..if take < b - a then a + take else b]
  }

  /** The walk's progress before rank `r`: the wanted records it has passed, fewer than the caller takes. */
  ghost predicate Walked(rs: seq<Rec>, lo: bytes, hi: Option<bytes>, r: nat, out: seq<Rec>, take: nat)
    requires Ascending(KeysOf(rs))
  {
    var a, b := RankOfKey(KeysOf(rs), lo), UpperRank(KeysOf(rs), hi);
    r <= |rs| && (r > a ==> r <= b) && out == (if a < r then rs[a..r] else []) && (take > 0 ==> |out| < take)
  }

  lemma {:induction false} Places(rs: seq<Rec>, q: bytes, r: nat)
    requires Ascending(KeysOf(rs)) && r < |rs|
    ensures Below(rs[r].key, q) <==> r < RankOfKey(KeysOf(rs), q)
  {
    assert KeysOf(rs)[r] == rs[r].key;
  }

  /** The record at `r`, before the range, past it, or handed out. */
  lemma {:induction false} WalkSteps(rs: seq<Rec>, lo: bytes, hi: Option<bytes>, r: nat, out: seq<Rec>, take: nat)
    requires Ascending(KeysOf(rs)) && Walked(rs, lo, hi, r, out, take) && r < |rs| && take > 0
    ensures Below(rs[r].key, lo) ==> Walked(rs, lo, hi, r + 1, out, take)
    ensures !Below(rs[r].key, lo) && hi.Some? && !Below(rs[r].key, hi.value) ==> out == Wanted(rs, lo, hi, take)
    ensures !Below(rs[r].key, lo) && (hi.Some? ==> Below(rs[r].key, hi.value)) ==>
      if |out| + 1 < take then Walked(rs, lo, hi, r + 1, out + [rs[r]], take) else out + [rs[r]] == Wanted(rs, lo, hi, take)
  {
    Places(rs, lo, r);
    if hi.Some? { Places(rs, hi.value, r); }
  }

  lemma {:induction false} WalkEnds(rs: seq<Rec>, lo: bytes, hi: Option<bytes>, r: nat, out: seq<Rec>, take: nat)
    requires Ascending(KeysOf(rs)) && Walked(rs, lo, hi, r, out, take) && take > 0 && UpperRank(KeysOf(rs), hi) <= r
    ensures out == Wanted(rs, lo, hi, take)
  {}

  lemma {:induction false} InOrder(rs: seq<Rec>, r: nat)
    requires Ascending(KeysOf(rs)) && 0 < r < |rs|
    ensures Below(rs[r - 1].key, rs[r].key)
  {
    assert Below(KeysOf(rs)[r - 1], KeysOf(rs)[r]);
  }

  /** The records of a range's bytes, in key order, handed out while they are in the range and the caller takes them. */
  method WalkRecords(d: seq<nat>, base: nat, buf: bytes, r0: nat, r1: nat, lo: bytes, hi: Option<bytes>, take: nat,
    ghost rs: seq<Rec>) returns (e: Option<WalkError>, out: seq<Rec>)
    requires Ascending(KeysOf(rs)) && r0 <= r1 <= |rs| && take > 0 && AllPlaced(buf, base, d, rs[r0..r1])
    requires r0 <= RankOfKey(KeysOf(rs), lo) && UpperRank(KeysOf(rs), hi) <= r1
    ensures e.None? && out == Wanted(rs, lo, hi, take)
  {
    e, out := None, [];
    var prev: Option<bytes> := None;
    var r := r0;
    while r < r1
      invariant r0 <= r <= r1 && e.None? && Walked(rs, lo, hi, r, out, take)
      invariant prev == if r > r0 then Some(rs[r - 1].key) else None
    {
      var rec;
      e, rec := WalkNext(buf, d, base, r - r0, rs[r0..r1]);
      if e.Some? {
        return;
      }
      if r > r0 { InOrder(rs, r); }
      if prev.Some? && !Below(prev.value, rec.key) {
        return Some(OutOfOrder), out;
      }
      prev := Some(rec.key);
      WalkSteps(rs, lo, hi, r, out, take);
      if !Below(rec.key, lo) {
        if hi.Some? && !Below(rec.key, hi.value) {
          return;
        }
        out := out + [rec];
        if |out| == take {
          return;
        }
      }
      r := r + 1;
    }
    WalkEnds(rs, lo, hi, r, out, take);
  }

  /** A range's records: where they lie, from the directory's words for it. */
  method RangeSpan(c: Checker, x: Index, fv: FenceView, lo: bytes, hi: Option<bytes>, ghost rs: seq<Rec>, ghost compact: bool)
    returns (r0: nat, r1: nat, d: Option<seq<nat>>, span: (nat, nat), read: seq<Range>)
    requires c.Sound() && Indexed(x, c.obj, rs, compact) && c.row == x.row && GoodFence(fv, KeysOf(rs))
    modifies c`verified
    ensures c.Sound()
    ensures (r0, r1) == RangeRanks(fv, KeysOf(rs), lo, hi) && r0 <= r1 <= |rs|
    ensures r0 <= RankOfKey(KeysOf(rs), lo) && UpperRank(KeysOf(rs), hi) <= r1
    ensures d.Some? ==> d.value == Offsets(rs, compact)[r0..r0 + EntriesOfRange(r0, r1, |rs|)]
    ensures d.Some? ==> span == SpanOfRanks(rs, compact, r0, r1)
    ensures x.dir.Some? ==> read == []
    ensures ReadsPlanned(x, read, DirRange(x, r0, r1))
    ensures (forall p :: 0 <= p < |x.row.crcs| ==> Matches(x.row, c.obj, p)) ==> d.Some?
  {
    r0, r1 := RankWindow(fv, x.nkeys, lo, hi, KeysOf(rs));
    span := (0, 0);
    d, read := DirSlice(c, x, r0, r1, rs, compact);
    if d.None? {
      return;
    }
    if r0 < r1 { SpanIs(x, c.obj, rs, compact, r0, r1, d.value); }
    var s := RecordSpan(x, r0, r1, d.value);
    span := s.value;
  }

  /** `dictionary_plan_records`: the records of a range, rounded and merged, from the directory's words for it. */
  method DictionaryPlanRecords(c: Checker, x: Index, fv: FenceView, lo: bytes, hi: Option<bytes>, ghost rs: seq<Rec>, ghost compact: bool)
    returns (plan: Option<seq<Range>>)
    requires c.Sound() && Indexed(x, c.obj, rs, compact) && c.row == x.row && GoodFence(fv, KeysOf(rs))
    modifies c`verified
    ensures c.Sound()
    ensures (forall p :: 0 <= p < |x.row.crcs| ==> Matches(x.row, c.obj, p)) ==> plan.Some?
    ensures var (r0, r1) := RangeRanks(fv, KeysOf(rs), lo, hi);
      r0 <= r1 <= |rs| && (plan.Some? ==> IsPlan(plan.value, x, RecordRange(x, SpanOfRanks(rs, compact, r0, r1))))
  {
    var r0, r1, d, span, read := RangeSpan(c, x, fv, lo, hi, rs, compact);
    if d.None? {
      return None;
    }
    var v := PlanOne(Round(x.row, x.named, RecordRange(x, span)));
    plan := Some(v);
  }

  lemma {:induction false} SpanBytes(obj: bytes, at: nat, all: bytes, a: nat, b: nat)
    requires at + |all| <= |obj| && obj[at..at + |all|] == all && a <= b <= |all|
    ensures obj[at + a..at + b] == all[a..b]
  {
    SubSlice(obj, at, at + |all|, a, b);
  }

  lemma {:induction false} SpanBounds(rs: seq<Rec>, compact: bool, r0: nat, r1: nat)
    requires r0 <= r1 <= |rs|
    ensures var s := SpanOfRanks(rs, compact, r0, r1); s.0 <= s.1 <= |AllRecords(rs, compact)|
  {
    OffOfEnd(rs, compact);
    OffsAscend(rs, compact, r0, r1);
    OffsAscend(rs, compact, r1, |rs|);
  }

  lemma {:induction false} SpanInSection(x: Index, obj: bytes, s: (nat, nat))
    requires HasRow(x, obj) && x.recsLen == x.bump && x.off + x.recsOff + x.recsLen <= |obj| && s.0 <= s.1 <= x.recsLen
    ensures InSection(x, obj, RecordRange(x, s))
    ensures RecordRange(x, s).at == x.off + x.recsOff + s.0 && RecordRange(x, s).End() == x.off + x.recsOff + s.1
  {}

  lemma {:induction false} WordsAre(rs: seq<Rec>, compact: bool, r0: nat, r1: nat, d: seq<nat>)
    requires r0 <= r1 <= |rs| && d == Offsets(rs, compact)[r0..r0 + EntriesOfRange(r0, r1, |rs|)]
    ensures |d| >= r1 - r0 && forall i :: 0 <= i < r1 - r0 ==> d[i] == OffOf(rs, compact, r0 + i)
  {}

  /** Everything read lies in one plan or the other, as they were rounded. */
  ghost predicate ReadsBoth(x: Index, read: seq<Range>, a: Range, b: Range)
    requires x.row.content.Valid()
  {
    var u, v := Round(x.row, x.named, a), Round(x.row, x.named, b);
    forall i :: 0 <= i < |read| ==>
      (u.at <= read[i].at && read[i].End() <= u.End()) || (v.at <= read[i].at && read[i].End() <= v.End())
  }

  lemma {:induction false} BothReads(x: Index, first: seq<Range>, second: seq<Range>, a: Range, b: Range)
    requires x.row.content.Valid() && ReadsPlanned(x, first, a) && ReadsPlanned(x, second, b)
    ensures ReadsBoth(x, first + second, a, b)
  {}

  /** Everything read lies in the record plan alone. */
  lemma {:induction false} OnlySecond(x: Index, second: seq<Range>, b: Range)
    requires x.row.content.Valid() && ReadsPlanned(x, second, b)
    ensures ReadsPlanned(x, [] + second, b)
  {
    assert [] + second == second;
  }

  /**
   `dictionary_walk`: exactly the sorted records of a range, as many as the caller takes; and nothing
   read, whole pieces checked included, outside its two plans, or outside the second where the directory
   is in memory and the first is empty. It is refused only where some piece does not match the row.
   */
  method DictionaryWalk(c: Checker, x: Index, fv: FenceView, lo: bytes, hi: Option<bytes>, take: nat,
    ghost rs: seq<Rec>, ghost compact: bool) returns (e: Option<WalkError>, out: seq<Rec>, read: seq<Range>)
    requires c.Sound() && Indexed(x, c.obj, rs, compact) && c.row == x.row && GoodFence(fv, KeysOf(rs)) && take > 0
    modifies c`verified
    ensures c.Sound()
    ensures e.None? ==> out == Wanted(rs, lo, hi, take)
    ensures (forall p :: 0 <= p < |x.row.crcs| ==> Matches(x.row, c.obj, p)) ==> e.None?
    ensures var (r0, r1) := RangeRanks(fv, KeysOf(rs), lo, hi);
      && r0 <= r1 <= |rs|
      && ReadsBoth(x, read, DirRange(x, r0, r1), RecordRange(x, SpanOfRanks(rs, compact, r0, r1)))
      && (x.dir.Some? ==> ReadsPlanned(x, read, RecordRange(x, SpanOfRanks(rs, compact, r0, r1))))
  {
    var r0, r1, d, span, first := RangeSpan(c, x, fv, lo, hi, rs, compact);
    ghost var dir, recs := DirRange(x, r0, r1), RecordRange(x, SpanOfRanks(rs, compact, r0, r1));
    if d.None? {
      BothReads(x, first, [], dir, recs);
      assert first + [] == first;
      return Some(BadPiece), [], first;
    }
    var second;
    e, out, second := WalkRecordsOf(c, x, r0, r1, d.value, span, lo, hi, take, rs, compact);
    BothReads(x, first, second, dir, recs);
    OnlySecond(x, second, recs);
    read := first + second;
  }

  /** The second half of a walk: the records of a range read, checked and handed out. */
  method WalkRecordsOf(c: Checker, x: Index, r0: nat, r1: nat, d: seq<nat>, span: (nat, nat), lo: bytes, hi: Option<bytes>,
    take: nat, ghost rs: seq<Rec>, ghost compact: bool) returns (e: Option<WalkError>, out: seq<Rec>, read: seq<Range>)
    requires c.Sound() && c.row == x.row && HasRow(x, c.obj) && HasRecords(x, c.obj, rs, compact)
    requires AllMade(rs, compact) && Ascending(KeysOf(rs)) && r0 <= r1 <= |rs| && take > 0
    requires r0 <= RankOfKey(KeysOf(rs), lo) && UpperRank(KeysOf(rs), hi) <= r1
    requires d == Offsets(rs, compact)[r0..r0 + EntriesOfRange(r0, r1, |rs|)] && span == SpanOfRanks(rs, compact, r0, r1)
    modifies c`verified
    ensures c.Sound() && ReadsPlanned(x, read, RecordRange(x, span))
    ensures e.None? ==> out == Wanted(rs, lo, hi, take)
    ensures (forall p :: 0 <= p < |x.row.crcs| ==> Matches(x.row, c.obj, p)) ==> e.None?
  {
    SpanBounds(rs, compact, r0, r1);
    var buf;
    buf, read := ReadRange(c, x, span, AllRecords(rs, compact));
    if buf.None? {
      return Some(BadPiece), [], read;
    }
    e, out := WalkRange(d, span, buf.value, r0, r1, lo, hi, take, rs, compact);
  }

  /** A span of the record region, checked. */
  method ReadRange(c: Checker, x: Index, span: (nat, nat), ghost all: bytes) returns (buf: Option<bytes>, read: seq<Range>)
    requires c.Sound() && HasRow(x, c.obj) && c.row == x.row && span.0 <= span.1 <= |all| == x.recsLen == x.bump
    requires x.off + x.recsOff + |all| <= |c.obj| && c.obj[x.off + x.recsOff..x.off + x.recsOff + |all|] == all
    modifies c`verified
    ensures c.Sound() && ReadsPlanned(x, read, RecordRange(x, span))
    ensures buf.Some? ==> buf.value == all[span.0..span.1]
    ensures (forall p :: 0 <= p < |x.row.crcs| ==> Matches(x.row, c.obj, p)) ==> buf.Some?
  {
    SpanInSection(x, c.obj, span);
    SpanBytes(c.obj, x.off + x.recsOff, all, span.0, span.1);
    buf, read := CheckedRead(c, x, RecordRange(x, span));
  }

  /** The walk over a range's own bytes. */
  method WalkRange(d: seq<nat>, span: (nat, nat), buf: bytes, r0: nat, r1: nat, lo: bytes, hi: Option<bytes>, take: nat,
    ghost rs: seq<Rec>, ghost compact: bool) returns (e: Option<WalkError>, out: seq<Rec>)
    requires AllMade(rs, compact) && Ascending(KeysOf(rs)) && r0 <= r1 <= |rs| && take > 0
    requires r0 <= RankOfKey(KeysOf(rs), lo) && UpperRank(KeysOf(rs), hi) <= r1
    requires d == Offsets(rs, compact)[r0..r0 + EntriesOfRange(r0, r1, |rs|)] && span == SpanOfRanks(rs, compact, r0, r1)
    requires span.0 <= span.1 <= |AllRecords(rs, compact)| && buf == AllRecords(rs, compact)[span.0..span.1]
    ensures e.None? && out == Wanted(rs, lo, hi, take)
  {
    WordsAre(rs, compact, r0, r1, d);
    if r0 < r1 {
      RecordsOfRange(rs, compact, r0, r1, AllRecords(rs, compact));
      RangePlaced(rs, compact, r0, r1, buf, span.0, d);
    }
    e, out := WalkRecords(d, span.0, buf, r0, r1, lo, hi, take, rs);
  }
}
