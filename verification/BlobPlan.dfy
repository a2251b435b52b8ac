/** Range plans: the bytes a read will ask a source for, sorted and merged. */
module BlobPlan {
  import opened Bytes
  import opened Wrappers
  import opened Runs
  import opened BlobVerify

  /** Bytes of the file: where they start, and how many. */
  datatype Range = Range(at: nat, len: nat) {
    function End(): nat { at + len }
    predicate Names(x: nat) { at <= x < at + len }
  }

  ghost predicate Covers(v: seq<Range>, x: nat) { exists i :: 0 <= i < |v| && v[i].Names(x) }

  predicate Before(a: Range, b: Range) { a.at < b.at || (a.at == b.at && a.len <= b.len) }

  ghost predicate Sorted(v: seq<Range>) { forall i, j :: 0 <= i < j < |v| ==> Before(v[i], v[j]) }

  /** In order, none empty, and a gap between any two. */
  ghost predicate Merged(v: seq<Range>) {
    && (forall i :: 0 <= i < |v| ==> v[i].len > 0)
    && (forall i, j :: 0 <= i < j < |v| ==> v[i].End() < v[j].at)
  }

  // ---------------------------------------------------------------- sorting

  /** The library's sort: the same ranges, in order. */
  function Inserted(v: seq<Range>, r: Range): (s: seq<Range>)
    ensures |s| == |v| + 1
  {
    if v == [] || Before(v[|v| - 1], r) then v + [r] else Inserted(v[..|v| - 1], r) + [v[|v| - 1]]
  }

  lemma {:induction false} InsertedSorts(v: seq<Range>, r: Range)
    requires Sorted(v)
    ensures Sorted(Inserted(v, r)) && multiset(Inserted(v, r)) == multiset(v) + multiset{r}
  {
    if v != [] && !Before(v[|v| - 1], r) {
      var front, last := v[..|v| - 1], v[|v| - 1];
      InsertedSorts(front, r);
      assert v == front + [last];
      var s := Inserted(front, r);
      forall i | 0 <= i < |s| ensures Before(s[i], last) {
        assert s[i] in multiset(s);
        assert s[i] in multiset(front) || s[i] == r;
      }
    }
  }

  method Sort(v: seq<Range>) returns (s: seq<Range>)
    ensures Sorted(s) && multiset(s) == multiset(v)
  {
    s := [];
    var i := 0;
    while i < |v|
      invariant i <= |v| && Sorted(s) && multiset(s) == multiset(v[..i])
    {
      InsertedSorts(s, v[i]);
      assert v[..i + 1] == v[..i] + [v[i]];
      s := Inserted(s, v[i]);
      i := i + 1;
    }
    assert v[..i] == v;
  }

  // ---------------------------------------------------------------- merging in place

  lemma {:induction false} CoversLast(v: seq<Range>, r: Range, x: nat)
    ensures Covers(v + [r], x) <==> Covers(v, x) || r.Names(x)
  {
    if Covers(v, x) {
      var i :| 0 <= i < |v| && v[i].Names(x);
      assert (v + [r])[i].Names(x);
    }
    if r.Names(x) { assert (v + [r])[|v|].Names(x); }
  }

  /** Merged ranges that all start no later than what is still to come. */
  ghost predicate Compacted(v: seq<Range>, sorted: seq<Range>, i: nat) {
    && i <= |sorted| && Merged(v)
    && (i > 0 ==> v != [])
    && (forall x :: Covers(v, x) <==> Covers(sorted[..i], x))
    && (forall k, j :: 0 <= k < |v| && i <= j < |sorted| ==> v[k].at <= sorted[j].at)
  }

  lemma {:induction false} Appends(v: seq<Range>, sorted: seq<Range>, i: nat, r: Range)
    requires Compacted(v, sorted, i) && i < |sorted| && r == sorted[i] && r.len > 0 && Sorted(sorted)
    requires v == [] || v[|v| - 1].End() < r.at
    ensures Compacted(v + [r], sorted, i + 1)
  {
    forall x ensures Covers(v + [r], x) <==> Covers(sorted[..i + 1], x) {
      CoversLast(v, r, x);
      CoversLast(sorted[..i], r, x);
      assert sorted[..i + 1] == sorted[..i] + [r];
    }
    forall k | 0 <= k < |v| ensures v[k].End() < r.at {
      if k < |v| - 1 { assert v[k].End() < v[|v| - 1].at; }
    }
  }

  /** The last range stretched over one that touches it. */
  function Stretched(last: Range, r: Range): Range
    requires last.at <= r.at
  {
    Range(last.at, (if r.End() > last.End() then r.End() else last.End()) - last.at)
  }

  lemma {:induction false} Stretches(v: seq<Range>, sorted: seq<Range>, i: nat, r: Range)
    requires Compacted(v, sorted, i) && i < |sorted| && r == sorted[i] && r.len > 0 && Sorted(sorted)
    requires v != [] && r.at <= v[|v| - 1].End()
    ensures v[|v| - 1].at <= r.at && Compacted(v[..|v| - 1] + [Stretched(v[|v| - 1], r)], sorted, i + 1)
  {
    var front, last := v[..|v| - 1], v[|v| - 1];
    var s := Stretched(last, r);
    assert v == front + [last];
    forall x ensures Covers(front + [s], x) <==> Covers(sorted[..i + 1], x) {
      CoversLast(front, s, x);
      CoversLast(front, last, x);
      CoversLast(sorted[..i], r, x);
      assert sorted[..i + 1] == sorted[..i] + [r];
    }
    assert forall k :: 0 <= k < |front| ==> v[k].End() < v[|v| - 1].at;
  }

  /** One more range, joined to the last where they touch. */
  method CompactNext(v: array<Range>, out: nat, i: nat, ghost sorted: seq<Range>) returns (next: nat)
    requires out <= i < v.Length == |sorted| && v[i..] == sorted[i..] && Sorted(sorted)
    requires sorted[i].len > 0 && Compacted(v[..out], sorted, i)
    modifies v
    ensures next <= i + 1 && v[i + 1..] == sorted[i + 1..] && Compacted(v[..next], sorted, i + 1)
  {
    ghost var was, r := v[..out], sorted[i];
    assert v[i] == v[i..][0] == r;
    if out > 0 && v[i].at <= v[out - 1].at + v[out - 1].len {
      Stretches(was, sorted, i, r);
      var a, b := v[i].at + v[i].len, v[out - 1].at + v[out - 1].len;
      v[out - 1] := Range(v[out - 1].at, (if a > b then a else b) - v[out - 1].at);
      next := out;
      assert v[..next] == was[..out - 1] + [Stretched(was[out - 1], r)];
    } else {
      Appends(was, sorted, i, r);
      v[out] := v[i];
      next := out + 1;
      assert v[..next] == was + [r];
    }
    assert v[i + 1..] == sorted[i..][1..];
  }

  /** The compaction: `out` ranges at the front of the array stand for the first `i` of the sorted list. */
  method Compact(v: array<Range>) returns (out: nat)
    requires Sorted(v[..]) && forall i :: 0 <= i < v.Length ==> v[i].len > 0
    modifies v
    ensures out <= v.Length && Merged(v[..out])
    ensures forall x :: Covers(v[..out], x) <==> Covers(old(v[..]), x)
  {
    ghost var sorted := v[..];
    out := 0;
    var i := 0;
    while i < v.Length
      invariant out <= i <= v.Length && v[i..] == sorted[i..]
      invariant Compacted(v[..out], sorted, i)
    {
      out := CompactNext(v, out, i, sorted);
      i := i + 1;
    }
    assert sorted[..i] == sorted;
  }

  // ---------------------------------------------------------------- merge_ranges

  /** The ranges that name a byte. */
  function NonEmpty(v: seq<Range>): (s: seq<Range>)
    ensures forall i :: 0 <= i < |s| ==> s[i].len > 0
  {
    if v == [] then []
    else NonEmpty(v[..|v| - 1]) + if v[|v| - 1].len > 0 then [v[|v| - 1]] else []
  }

  lemma {:induction false} NonEmptyCovers(v: seq<Range>, x: nat)
    ensures Covers(NonEmpty(v), x) <==> Covers(v, x)
  {
    if v != [] {
      var front, last := v[..|v| - 1], v[|v| - 1];
      NonEmptyCovers(front, x);
      CoversLast(front, last, x);
      assert v == front + [last];
      CoversLast(NonEmpty(front), last, x);
      assert NonEmpty(front) + [] == NonEmpty(front);
    }
  }

  lemma {:induction false} SameMembers(a: seq<Range>, b: seq<Range>)
    requires multiset(a) == multiset(b)
    ensures forall r :: r in a <==> r in b
    ensures forall x :: Covers(a, x) <==> Covers(b, x)
  {
    forall r ensures r in a <==> r in b {
      assert r in a <==> r in multiset(a);
      assert r in b <==> r in multiset(b);
    }
    forall x ensures Covers(a, x) <==> Covers(b, x) {
      if Covers(a, x) {
        var i :| 0 <= i < |a| && a[i].Names(x);
        assert a[i] in b;
        var j :| 0 <= j < |b| && b[j] == a[i];
      }
      if Covers(b, x) {
        var i :| 0 <= i < |b| && b[i].Names(x);
        assert b[i] in a;
        var j :| 0 <= j < |a| && a[j] == b[i];
      }
    }
  }

  /** A vector of ranges, as a plan grows it. */
  class Ranges {
    var v: seq<Range>

    constructor (v: seq<Range>)
      ensures this.v == v
    {
      this.v := v;
    }

    /** `merge_ranges`: sorted, none empty, no two touching, and naming exactly the bytes they named. */
    method Merge()
      modifies this`v
      ensures Merged(v)
      ensures forall x :: Covers(v, x) <==> Covers(old(v), x)
    {
      var kept := NonEmpty(v);
      var sorted := Sort(kept);
      SameMembers(sorted, kept);
      forall x ensures Covers(kept, x) <==> Covers(v, x) { NonEmptyCovers(v, x); }
      forall i | 0 <= i < |sorted| ensures sorted[i].len > 0 { assert sorted[i] in kept; }
      var a := new Range[|sorted|](i requires 0 <= i < |sorted| => sorted[i]);
      assert a[..] == sorted;
      var out := Compact(a);
      v := a[..out];
    }
  }

  // ---------------------------------------------------------------- plans

  /** The stored bytes a read of an extent fetches: the chunks it spans where they are checked singly, else the block. */
  function ChunkSpan(loc: Loc, e: Ext): (s: (nat, nat))
    ensures s.0 <= s.1 <= loc.stored
  {
    if !loc.IsPlain() || !loc.chunkCrc then (0, loc.stored)
    else
      var a := Min(e.off / CHUNK * CHUNK, loc.stored);
      var b := Min((e.off + e.len + CHUNK - 1) / CHUNK * CHUNK, loc.stored);
      (a, if b > a then b else a)
  }

  /** A span starts at a chunk, or at the block's end, and ends at one; an extent inside its block lies in it. */
  lemma {:induction false} SpanHolds(loc: Loc, e: Ext)
    ensures var (a, b) := ChunkSpan(loc, e);
      && (a % CHUNK == 0 || a == loc.stored) && (b % CHUNK == 0 || b == loc.stored)
      && (loc.IsPlain() && e.off + e.len <= loc.stored ==> a <= e.off && e.off + e.len <= b)
      && (loc.IsPlain() && e.off + e.len <= loc.stored && e.len > 0 ==> a % CHUNK == 0)
  {}

  /** What `with_extent` asks the source for. */
  function SpanOf(t: Table, e: Ext): Range
    requires e.block < |t.locs|
  {
    var loc := t.locs[e.block];
    var (a, b) := ChunkSpan(loc, e);
    Range(loc.off + a, b - a)
  }

  /** Every extent that is not in the index names a block of the table. */
  ghost predicate Named(t: Table, exts: seq<Ext>) {
    forall i :: 0 <= i < |exts| && !exts[i].IsInline() ==> exts[i].block < |t.locs|
  }

  /** A byte some extent's read asks for. */
  ghost predicate Asked(t: Table, exts: seq<Ext>, x: nat)
    requires Named(t, exts)
  {
    exists i :: 0 <= i < |exts| && !exts[i].IsInline() && SpanOf(t, exts[i]).Names(x)
  }

  lemma {:induction false} AskedLast(t: Table, exts: seq<Ext>, e: Ext, x: nat)
    requires Named(t, exts) && (!e.IsInline() ==> e.block < |t.locs|) && Named(t, exts + [e])
    ensures Asked(t, exts + [e], x) <==> Asked(t, exts, x) || (!e.IsInline() && SpanOf(t, e).Names(x))
  {
    var all := exts + [e];
    if Asked(t, exts, x) {
      var i :| 0 <= i < |exts| && !exts[i].IsInline() && SpanOf(t, exts[i]).Names(x);
      assert all[i] == exts[i];
    }
    if !e.IsInline() && SpanOf(t, e).Names(x) { assert all[|exts|] == e; }
    if Asked(t, all, x) {
      var i :| 0 <= i < |all| && !all[i].IsInline() && SpanOf(t, all[i]).Names(x);
      assert i < |exts| ==> all[i] == exts[i];
    }
  }

  /** `plan_exts`: a range for each extent a block holds; refused for one that names no block. */
  method PlanExts(t: Table, exts: seq<Ext>) returns (out: Option<seq<Range>>)
    ensures out.Some? <==> Named(t, exts)
    ensures out.Some? ==> forall x :: Covers(out.value, x) <==> Asked(t, exts, x)
  {
    var v: seq<Range> := [];
    var i := 0;
    while i < |exts|
      invariant i <= |exts| && Named(t, exts[..i])
      invariant forall x :: Covers(v, x) <==> Asked(t, exts[..i], x)
    {
      var e := exts[i];
      assert exts[..i + 1] == exts[..i] + [e];
      if !e.IsInline() {
        if e.block >= |t.locs| {
          return None;
        }
        forall x ensures Covers(v + [SpanOf(t, e)], x) <==> Asked(t, exts[..i + 1], x) {
          AskedLast(t, exts[..i], e, x);
          CoversLast(v, SpanOf(t, e), x);
        }
        v := v + [SpanOf(t, e)];
      } else {
        forall x ensures Asked(t, exts[..i], x) <==> Asked(t, exts[..i + 1], x) {
          AskedLast(t, exts[..i], e, x);
        }
      }
      i := i + 1;
    }
    assert exts[..i] == exts;
    out := Some(v);
  }

  /** `ranges_for_exts`: a key's plan is exactly the union of the spans its reads ask for, merged. */
  method RangesForExts(t: Table, exts: seq<Ext>) returns (out: Option<seq<Range>>)
    ensures out.Some? <==> Named(t, exts)
    ensures out.Some? ==> Merged(out.value) && forall x :: Covers(out.value, x) <==> Asked(t, exts, x)
  {
    out := PlanExts(t, exts);
    if out.Some? {
      var r := new Ranges(out.value);
      r.Merge();
      out := Some(r.v);
    }
  }

  /** Every byte of an extent inside a plain block is in its key's plan. */
  lemma {:induction false} PlanContains(t: Table, exts: seq<Ext>, i: nat, x: nat)
    requires Named(t, exts) && i < |exts| && !exts[i].IsInline() && t.locs[exts[i].block].IsPlain()
    requires exts[i].off + exts[i].len <= t.locs[exts[i].block].stored
    requires t.locs[exts[i].block].off + exts[i].off <= x < t.locs[exts[i].block].off + exts[i].off + exts[i].len
    ensures Asked(t, exts, x)
  {
    SpanHolds(t.locs[exts[i].block], exts[i]);
    assert SpanOf(t, exts[i]).Names(x);
  }

  /** And every stored byte of a block that is compressed, or checked only whole. */
  lemma {:induction false} PlanContainsBlock(t: Table, exts: seq<Ext>, i: nat, x: nat)
    requires Named(t, exts) && i < |exts| && !exts[i].IsInline()
    requires var loc := t.locs[exts[i].block]; (!loc.IsPlain() || !loc.chunkCrc) && loc.off <= x < loc.off + loc.stored
    ensures Asked(t, exts, x)
  {
    assert SpanOf(t, exts[i]).Names(x);
  }

  // ---------------------------------------------------------------- the read a plan is of

  /** What went wrong with a read. */
  datatype Refused = NoRecord | NoBlock | PastBlock | BadSum

  /**
   An empty extent whose span is not its whole block: of a plain block with chunk checksums that is not
   empty, unless the block is a single chunk and the extent is inside it.
   */
  predicate Partial(loc: Loc, e: Ext) {
    loc.IsPlain() && loc.chunkCrc && e.len == 0 && loc.stored > 0 && !(0 < e.off < CHUNK && loc.stored <= CHUNK)
  }

  lemma {:induction false} PartialSpan(loc: Loc, e: Ext)
    requires loc.IsPlain() && e.len == 0 && e.off <= loc.stored
    ensures Partial(loc, e) <==> ChunkSpan(loc, e) != (0, loc.stored)
  {}

  /** Over a block whose bytes match, a read of an empty extent inside it passes its check exactly where it is not partial. */
  lemma {:induction false} EmptyExtent(t: Table, data: seq<bytes>, e: Ext, bits: seq<bool>)
    requires Source(t, data) && AllGood(t, data) && e.block < |data| && t.locs[e.block].IsPlain()
    requires e.len == 0 && e.off <= t.locs[e.block].stored
    ensures var loc := t.locs[e.block];
      var (c0, c1) := ChunkSpan(loc, e);
      Check(t, loc, e.block, data[e.block][c0..c1], c0, e.off, e.off, bits).ok <==> !Partial(loc, e)
  {
    var loc := t.locs[e.block];
    var (c0, c1) := ChunkSpan(loc, e);
    PartialSpan(loc, e);
    EmptyPasses(t, loc, e.block, data[e.block][c0..c1], c0, e.off, bits);
    assert BlockMatches(t, data[e.block], e.block);
    if !Partial(loc, e) { assert data[e.block][c0..c1] == data[e.block]; }
  }

  /**
   `with_extent` of an extent of a plain block: exactly its span is taken from the source, and what is
   handed on is the extent's own bytes; with checks on, only where checksums that matched cover them.
   Where every checksum matches, an extent inside its block is refused exactly where checks are on and it
   is empty and partial.
   */
  method ReadPlain(reader: Reader, e: Ext, data: seq<bytes>) returns (r: Result<bytes, Refused>, fetched: Option<Range>)
    requires Source(reader.t, data) && Sound(reader.t, data, reader.verified)
    requires e.block < |reader.t.locs| ==> reader.t.locs[e.block].IsPlain()
    modifies reader`verified
    ensures Sound(reader.t, data, reader.verified)
    ensures fetched.Some? <==> !e.IsInline() && e.block < |reader.t.locs|
    ensures fetched.Some? ==> fetched.value == SpanOf(reader.t, e)
    ensures r.Success? ==> fetched.Some? && e.off + e.len <= |data[e.block]| && r.value == data[e.block][e.off..e.off + e.len]
    ensures r.Success? && reader.checks && WholeTable(reader.t) && e.len > 0 ==>
      Covered(reader.t, data[e.block], e.block, e.off, e.off + e.len)
    ensures fetched.Some? && e.off + e.len <= |data[e.block]| && WholeTable(reader.t) && AllGood(reader.t, data) ==>
      (r.Success? <==> !(reader.checks && Partial(reader.t.locs[e.block], e)))
  {
    if e.IsInline() {
      return Failure(NoRecord), None;
    }
    if e.block >= |reader.t.locs| {
      return Failure(NoBlock), None;
    }
    var loc := reader.t.locs[e.block];
    var a, b := e.off, e.off + e.len;
    var (c0, c1) := ChunkSpan(loc, e);
    assert |data[e.block]| == loc.stored;
    var raw := data[e.block][c0..c1];
    assert |raw| == c1 - c0;
    fetched := Some(SpanOf(reader.t, e));
    SpanHolds(loc, e);
    if e.len == 0 && e.off <= loc.stored { PartialSpan(loc, e); }
    if a < c0 || b > c0 + |raw| {
      return Failure(PastBlock), fetched;
    }
    var ok := CheckSpan(reader, e.block, raw, c0, a, b, data);
    if !ok {
      return Failure(BadSum), fetched;
    }
    r := Success(raw[a - c0..b - c0]);
  }

  /** The check of a fetched span, which starts at a chunk or is empty at the block's end. */
  method CheckSpan(reader: Reader, id: nat, raw: bytes, base: nat, lo: nat, hi: nat, ghost data: seq<bytes>) returns (ok: bool)
    requires Source(reader.t, data) && Sound(reader.t, data, reader.verified)
    requires id < |data| && Fetched(reader.t.locs[id], data[id], raw, base) && base <= lo <= hi <= base + |raw|
    requires base % CHUNK == 0 || base == |data[id]|
    requires !reader.t.locs[id].chunkCrc ==> base == 0 && |raw| == |data[id]|
    modifies reader`verified
    ensures Sound(reader.t, data, reader.verified)
    ensures ok && reader.checks && WholeTable(reader.t) && lo < hi ==> Covered(reader.t, data[id], id, lo, hi)
    ensures WholeTable(reader.t) && AllGood(reader.t, data) ==>
      (ok <==> lo < hi || !reader.checks || (base == 0 && |raw| == |data[id]|))
  {
    if WholeTable(reader.t) && AllGood(reader.t, data) {
      if lo < hi {
        GoodPasses(reader.t, data, id, raw, base, lo, hi, reader.verified);
      } else {
        EmptyPasses(reader.t, reader.t.locs[id], id, raw, base, lo, reader.verified);
        assert BlockMatches(reader.t, data[id], id);
        if base == 0 && |raw| == |data[id]| { assert raw == data[id]; }
      }
    }
    ok := reader.Verify(Read(id, raw, base, lo, hi), data);
  }

  lemma {:induction false} GoodPasses(t: Table, data: seq<bytes>, id: nat, raw: bytes, base: nat, lo: nat, hi: nat, bits: seq<bool>)
    requires Source(t, data) && WholeTable(t) && AllGood(t, data) && id < |data|
    requires Fetched(t.locs[id], data[id], raw, base) && base <= lo < hi <= base + |raw|
    requires base % CHUNK == 0 || base == |data[id]|
    requires !t.locs[id].chunkCrc ==> base == 0 && |raw| == |data[id]|
    ensures Check(t, t.locs[id], id, raw, base, lo, hi, bits).ok
  {
    assert hi <= |data[id]|;
    MatchedPasses(t, data, id, raw, base, lo, hi, bits);
  }
}
