/** The section laid out whole: planned, then written region by region into one buffer, its records in any order. */
module FlatEncode {
  import opened Bytes
  import opened Wrappers
  import opened Records
  import opened RecordWalk
  import opened HashTable
  import HashMap
  import opened FenceSeek
  import opened FlatParse
  import opened FlatHolds
  import opened FlatLayout
  import opened FlatWrite
  import opened FlatBuild

  // ---------------------------------------------------------------- the plan

  method PlanRecord(r: Rec) returns (len: nat)
    requires Made(r, true)
    ensures len == |ImageOf(r, true)|
  {
    RecordLength(r.key, r.exts, r.tail, true);
    len := RecordLenFor(|r.key|, r.exts, |r.tail|, true).value;
  }

  lemma {:induction false} PlanStep(rs: seq<Rec>, i: nat)
    requires AllMade(rs, true) && i < |rs|
    ensures Made(rs[i], true) && OffOf(rs, true, i) <= OffOf(rs, true, |rs|)
    ensures OffOf(rs, true, i + 1) == OffOf(rs, true, i) + |ImageOf(rs[i], true)|
  {
    assert Made(rs[i], true);
    OffsAscend(rs, true, i, |rs|);
    OffStep(rs, true, i);
  }

  /** The next record's length, and what it adds. */
  method PlanNext(rs: seq<Rec>, i: nat, at: nat) returns (next: nat)
    requires AllMade(rs, true) && i < |rs| && at == OffOf(rs, true, i)
    ensures next == OffOf(rs, true, i + 1) && at <= OffOf(rs, true, |rs|)
  {
    PlanStep(rs, i);
    var len := PlanRecord(rs[i]);
    next := at + len;
  }

  /** Each offset the sum of the lengths before it; `None` once one passes 32 bits. */
  method PlanSums(rs: seq<Rec>, ghost all: seq<nat>) returns (r: Option<(seq<nat>, nat)>)
    requires AllMade(rs, true) && all == Offsets(rs, true)
    ensures r.Some? ==> r.value == (all, OffOf(rs, true, |rs|))
    ensures r.None? ==> OffOf(rs, true, |rs|) > MAX_RECS
  {
    var offs, at := [], 0;
    var i := 0;
    OffOfStart(rs);
    while i < |rs|
      invariant i <= |rs| && at == OffOf(rs, true, i) && offs == all[..i]
    {
      var next := PlanNext(rs, i, at);
      if at > MAX_RECS {
        return None;
      }
      offs, at := offs + [at], next;
      i := i + 1;
    }
    assert offs == all;
    r := Some((offs, at));
  }

  /** Every record's offset and the bytes of all; `None` where one cannot be framed or they pass 32 bits. */
  method PlanInline(rs: seq<Rec>) returns (r: Option<(seq<nat>, nat)>)
    requires AllMade(rs, true)
    ensures r.Some? ==> r.value == (Offsets(rs, true), |AllRecords(rs, true)|)
    ensures r.None? ==> |AllRecords(rs, true)| > MAX_RECS
  {
    r := PlanSums(rs, Offsets(rs, true));
    OffOfEnd(rs, true);
  }

  lemma {:induction false} OffOfStart(rs: seq<Rec>)
    ensures OffOf(rs, true, 0) == 0
  {
    assert rs[..0] == [];
  }

  // ---------------------------------------------------------------- records and directory

  /** Each record's bytes. */
  function Images(rs: seq<Rec>): (imgs: seq<bytes>)
    ensures |imgs| == |rs|
  {
    seq(|rs|, i requires 0 <= i < |rs| => ImageOf(rs[i], true))
  }

  /** Images at their offsets, one after another. */
  ghost predicate Stacked(imgs: seq<bytes>, offs: seq<nat>, len: nat) {
    && |imgs| == |offs|
    && (forall i :: 0 <= i < |imgs| ==> offs[i] + |imgs[i]| <= len)
    && (forall i, j :: 0 <= i < j < |imgs| ==> offs[i] + |imgs[i]| <= offs[j])
  }

  lemma {:induction false} ImageBefore(rs: seq<Rec>, i: nat, j: nat)
    requires i < j <= |rs|
    ensures OffOf(rs, true, i) + |ImageOf(rs[i], true)| <= OffOf(rs, true, j)
  {
    OffStep(rs, true, i);
    OffsAscend(rs, true, i + 1, j);
  }

  lemma {:induction false} ImagesStacked(rs: seq<Rec>, imgs: seq<bytes>, offs: seq<nat>, len: nat)
    requires imgs == Images(rs) && offs == Offsets(rs, true) && len == OffOf(rs, true, |rs|)
    ensures Stacked(imgs, offs, len)
  {
    forall i | 0 <= i < |rs| ensures offs[i] + |imgs[i]| <= len { ImageBefore(rs, i, |rs|); }
    forall i, j | 0 <= i < j < |rs| ensures offs[i] + |imgs[i]| <= offs[j] { ImageBefore(rs, i, j); }
  }

  /** Where the two regions are: the records from `recsAt`, `len` bytes of them; the directory below them. */
  datatype Regions = Regions(recsAt: nat, len: nat, dirAt: nat, n: nat) {
    predicate Fits(total: nat) { dirAt + 4 * n <= recsAt && recsAt + len <= total }
    predicate Holds(j: nat) { recsAt <= j < recsAt + len || dirAt <= j < dirAt + 4 * n }
  }

  /** The bytes at one record's place, and its directory word. */
  ghost predicate InPlace(s: bytes, g: Regions, imgs: seq<bytes>, offs: seq<nat>, i: nat)
    requires i < |imgs| == |offs|
  {
    Lies(s, g.recsAt + offs[i], imgs[i]) && Lies(s, g.dirAt + 4 * i, LeBytes(offs[i], 4))
  }

  /** The bytes that are record `i`'s own. */
  predicate Own(g: Regions, imgs: seq<bytes>, offs: seq<nat>, i: nat, j: nat)
    requires i < |imgs| == |offs|
  {
    g.recsAt + offs[i] <= j < g.recsAt + offs[i] + |imgs[i]| || g.dirAt + 4 * i <= j < g.dirAt + 4 * i + 4
  }

  lemma {:induction false} SameSlice(s: bytes, t: bytes, at: nat, len: nat)
    requires |s| == |t| && at + len <= |s| && forall j :: at <= j < at + len ==> t[j] == s[j]
    ensures t[at..at + len] == s[at..at + len]
  {}

  /** Writing record `i` leaves every other as it was. */
  lemma {:induction false} OthersStand(s: bytes, t: bytes, g: Regions, imgs: seq<bytes>, offs: seq<nat>, i: nat, k: nat)
    requires |s| == |t| && Stacked(imgs, offs, g.len) && g.n == |imgs| && g.Fits(|s|)
    requires i < |imgs| && k < |imgs| && i != k && InPlace(s, g, imgs, offs, k)
    requires forall j :: 0 <= j < |s| && !Own(g, imgs, offs, i, j) ==> t[j] == s[j]
    ensures InPlace(t, g, imgs, offs, k)
  {
    var at, len := g.recsAt + offs[k], |imgs[k]|;
    assert i < k ==> offs[i] + |imgs[i]| <= offs[k];
    assert k < i ==> offs[k] + |imgs[k]| <= offs[i];
    SameSlice(s, t, at, len);
    SameSlice(s, t, g.dirAt + 4 * k, 4);
  }

  /** One key's record, made in its own slice. */
  method MakeRecord(r: Rec) returns (img: bytes)
    requires Made(r, true)
    ensures img == ImageOf(r, true)
  {
    RecordLength(r.key, r.exts, r.tail, true);
    var rec := new byte[RecordLenFor(|r.key|, r.exts, |r.tail|, true).value](_ => 0);
    var at := RecordInto(rec, r.key, r.exts, r.tail, true);
    img := rec[..];
  }

  /** One key's record, and its word in the directory. */
  method WriteRecord(out: array<byte>, g: Regions, img: bytes, off: nat, i: nat, ghost imgs: seq<bytes>, ghost offs: seq<nat>)
    requires i < |imgs| == |offs| == g.n && img == imgs[i] && off == offs[i]
    requires g.Fits(out.Length) && Stacked(imgs, offs, g.len)
    modifies out
    ensures InPlace(out[..], g, imgs, offs, i)
    ensures forall j :: 0 <= j < out.Length && !Own(g, imgs, offs, i, j) ==> out[j] == old(out[j])
  {
    PutPair(out, g.recsAt + off, img, g.dirAt + 4 * i, LeBytes(off, 4));
  }

  /** Two parts copied in, apart from each other. */
  method PutPair(out: array<byte>, a: nat, x: bytes, b: nat, y: bytes)
    requires a + |x| <= out.Length && b + |y| <= a
    modifies out
    ensures Lies(out[..], a, x) && Lies(out[..], b, y)
    ensures forall j :: 0 <= j < out.Length && !(a <= j < a + |x|) && !(b <= j < b + |y|) ==> out[j] == old(out[j])
  {
    Put(out, a, x);
    label first:
    Put(out, b, y);
    assert out[a..a + |x|] == old@first(out[a..a + |x|]);
    assert out[..][a..a + |x|] == out[a..a + |x|] && out[..][b..b + |y|] == out[b..b + |y|];
  }

  /** Every rank in the order so far is written. */
  ghost predicate InPlaceSo(s: bytes, g: Regions, imgs: seq<bytes>, offs: seq<nat>, order: seq<nat>, k: nat) {
    && |imgs| == |offs| && k <= |order| && (forall j :: 0 <= j < |order| ==> order[j] < |imgs|)
    && forall j {:trigger InPlace(s, g, imgs, offs, order[j])} :: 0 <= j < k ==> InPlace(s, g, imgs, offs, order[j])
  }

  lemma {:induction false} NextInPlace(s: bytes, t: bytes, g: Regions, imgs: seq<bytes>, offs: seq<nat>, order: seq<nat>, k: nat)
    requires |s| == |t| && Stacked(imgs, offs, g.len) && g.n == |imgs| && g.Fits(|s|)
    requires k < |order| && InPlaceSo(s, g, imgs, offs, order, k) && InPlace(t, g, imgs, offs, order[k])
    requires forall j :: 0 <= j < |s| && !Own(g, imgs, offs, order[k], j) ==> t[j] == s[j]
    ensures InPlaceSo(t, g, imgs, offs, order, k + 1)
  {
    forall j | 0 <= j < k ensures InPlace(t, g, imgs, offs, order[j]) {
      assert InPlace(s, g, imgs, offs, order[j]);
      if order[j] != order[k] { OthersStand(s, t, g, imgs, offs, order[k], order[j]); }
    }
  }

  lemma {:induction false} OwnInside(g: Regions, imgs: seq<bytes>, offs: seq<nat>, i: nat)
    requires Stacked(imgs, offs, g.len) && g.n == |imgs| && i < |imgs|
    ensures forall j :: Own(g, imgs, offs, i, j) ==> g.Holds(j)
  {}

  /** Every rank below `n`, in any order, and no other. */
  ghost predicate EveryRank(order: seq<nat>, n: nat) {
    (forall j :: 0 <= j < |order| ==> order[j] < n) && forall i :: 0 <= i < n ==> i in order
  }

  /**
   The records and the directory, each rank's own bytes, in whatever order the threads come to them:
   `order` is any that has every rank.
   */
  method WriteRecords(out: array<byte>, g: Regions, rs: seq<Rec>, offs: seq<nat>, order: seq<nat>)
    requires AllMade(rs, true) && offs == Offsets(rs, true) && g.n == |rs| && g.len == |AllRecords(rs, true)| && g.Fits(out.Length)
    requires EveryRank(order, |rs|)
    modifies out
    ensures Lies(out[..], g.recsAt, AllRecords(rs, true)) && Lies(out[..], g.dirAt, Words(Offsets(rs, true), 4))
    ensures forall j :: 0 <= j < out.Length && !g.Holds(j) ==> out[j] == old(out[j])
  {
    ghost var imgs := Images(rs);
    OffOfEnd(rs, true);
    ImagesStacked(rs, imgs, offs, g.len);
    var k := 0;
    while k < |order|
      invariant k <= |order| && InPlaceSo(out[..], g, imgs, offs, order, k)
      invariant forall j :: 0 <= j < out.Length && !g.Holds(j) ==> out[j] == old(out[j])
    {
      var i := order[k];
      assert Made(rs[i], true);
      var img := MakeRecord(rs[i]);
      ghost var s := out[..];
      WriteRecord(out, g, img, offs[i], i, imgs, offs);
      OwnInside(g, imgs, offs, i);
      NextInPlace(s, out[..], g, imgs, offs, order, k);
      k := k + 1;
    }
    AllInPlace(out[..], g, rs, imgs, offs, order);
  }

  lemma {:induction false} AllInPlace(s: bytes, g: Regions, rs: seq<Rec>, imgs: seq<bytes>, offs: seq<nat>, order: seq<nat>)
    requires imgs == Images(rs) && offs == Offsets(rs, true) && InPlaceSo(s, g, imgs, offs, order, |order|)
    requires (forall i :: 0 <= i < |rs| ==> i in order) && g.recsAt <= |s| && g.dirAt <= |s|
    ensures Lies(s, g.recsAt, AllRecords(rs, true)) && Lies(s, g.dirAt, Words(offs, 4))
  {
    forall i | 0 <= i < |rs| ensures InPlace(s, g, imgs, offs, i) {
      assert i in order;
      var j :| 0 <= j < |order| && order[j] == i;
      assert InPlace(s, g, imgs, offs, order[j]);
    }
    RecordsLie(s, g, rs, imgs, offs, |rs|);
    WordsLie(s, g, imgs, offs, |rs|);
    assert rs[..|rs|] == rs && offs[..|rs|] == offs;
  }

  lemma {:induction false} LiesJoin(s: bytes, at: nat, a: bytes, b: bytes)
    requires Lies(s, at, a) && Lies(s, at + |a|, b)
    ensures Lies(s, at, a + b)
  {
    assert s[at..at + |a + b|] == s[at..at + |a|] + s[at + |a|..at + |a| + |b|];
  }

  lemma {:induction false} RecordsSnoc(rs: seq<Rec>, k: nat)
    requires k < |rs|
    ensures AllRecords(rs[..k + 1], true) == AllRecords(rs[..k], true) + ImageOf(rs[k], true)
  {
    AllSplit(rs[..k + 1], true, k);
    assert rs[..k + 1][..k] == rs[..k] && rs[..k + 1][k..] == [rs[k]] && [rs[k]][1..] == [];
    assert ImageOf(rs[k], true) + [] == ImageOf(rs[k], true);
  }

  lemma {:induction false} RecordsLie(s: bytes, g: Regions, rs: seq<Rec>, imgs: seq<bytes>, offs: seq<nat>, k: nat)
    requires imgs == Images(rs) && offs == Offsets(rs, true) && k <= |rs| && g.recsAt <= |s|
    requires forall i {:trigger InPlace(s, g, imgs, offs, i)} :: 0 <= i < k ==> InPlace(s, g, imgs, offs, i)
    ensures Lies(s, g.recsAt, AllRecords(rs[..k], true))
    decreases k
  {
    if k > 0 {
      RecordsLie(s, g, rs, imgs, offs, k - 1);
      assert InPlace(s, g, imgs, offs, k - 1);
      LiesJoin(s, g.recsAt, AllRecords(rs[..k - 1], true), imgs[k - 1]);
      RecordsSnoc(rs, k - 1);
    } else {
      assert rs[..0] == [];
    }
  }

  lemma {:induction false} WordJoins(s: bytes, at: nat, vs: seq<nat>, v: nat)
    requires Lies(s, at, Words(vs, 4)) && Lies(s, at + 4 * |vs|, LeBytes(v, 4))
    ensures Lies(s, at, Words(vs, 4) + LeBytes(v, 4))
  {
    WordPlaceIs(4, |vs|);
    LiesJoin(s, at, Words(vs, 4), LeBytes(v, 4));
  }

  lemma {:induction false} WordsLie(s: bytes, g: Regions, imgs: seq<bytes>, offs: seq<nat>, k: nat)
    requires k <= |imgs| == |offs| && g.dirAt <= |s|
    requires forall i {:trigger InPlace(s, g, imgs, offs, i)} :: 0 <= i < k ==> InPlace(s, g, imgs, offs, i)
    ensures Lies(s, g.dirAt, Words(offs[..k], 4))
    decreases k
  {
    if k > 0 {
      WordsLie(s, g, imgs, offs, k - 1);
      assert InPlace(s, g, imgs, offs, k - 1);
      WordJoins(s, g.dirAt, offs[..k - 1], offs[k - 1]);
      WordsSnoc(offs, k - 1, 4);
    }
  }

  // ---------------------------------------------------------------- the section

  ghost predicate Blank(s: bytes, lo: nat, hi: nat) {
    forall j :: lo <= j < hi && j < |s| ==> s[j] == 0
  }

  lemma {:induction false} GapLies(s: bytes, lo: nat, hi: nat)
    requires lo <= hi <= |s| && Blank(s, lo, hi)
    ensures Lies(s, lo, Gap(lo, hi)) && |Gap(lo, hi)| == hi - lo
  {}

  lemma {:induction false} LiesWhole(s: bytes, x: bytes)
    requires Lies(s, 0, x) && |x| == |s|
    ensures s == x
  {
    assert s == s[0..|s|];
  }

  lemma {:induction false} AllParts(s: bytes, h: bytes, t: bytes, w: bytes, g0: bytes, fence: bytes, g1: bytes, a: bytes)
    requires Lies(s, 0, h) && Lies(s, |h|, t) && Lies(s, |h| + |t|, w) && Lies(s, |h| + |t| + |w|, g0)
    requires Lies(s, |h| + |t| + |w| + |g0|, fence) && Lies(s, |h| + |t| + |w| + |g0| + |fence|, g1)
    requires Lies(s, |h| + |t| + |w| + |g0| + |fence| + |g1|, a)
    requires |s| == |h| + |t| + |w| + |g0| + |fence| + |g1| + |a|
    ensures s == h + (t + (w + g0 + (fence + (g1 + a))))
  {
    JoinBack(s, |h|, t, w, g0, fence, g1, a);
    LiesJoin(s, 0, h, t + (w + g0 + (fence + (g1 + a))));
    LiesWhole(s, h + (t + (w + g0 + (fence + (g1 + a)))));
  }

  /** A buffer whose regions lie at their places, zeros between, is those pieces arranged. */
  lemma {:induction false} Assembles(s: bytes, h: bytes, t: bytes, w: bytes, fence: bytes, a: bytes, p: Places)
    requires |h| == p.hash.lo && p.hash.hi == p.hash.lo + |t| && p.dir.lo == p.hash.hi && p.dir.hi >= p.dir.lo + |w|
    requires p.fence == Span(p.dir.hi, p.dir.hi + |fence|) && p.recs.lo >= p.fence.hi && p.recs.hi == p.recs.lo + |a| == |s|
    requires Lies(s, 0, h) && Lies(s, p.hash.lo, t) && Lies(s, p.dir.lo, w) && Lies(s, p.fence.lo, fence) && Lies(s, p.recs.lo, a)
    requires Blank(s, p.dir.lo + |w|, p.dir.hi) && Blank(s, p.fence.hi, p.recs.lo)
    ensures s == h + Arranged(t, w, fence, a, p)
  {
    var g0, g1 := Gap(p.dir.lo + |w|, p.dir.hi), Gap(p.fence.hi, p.recs.lo);
    GapLies(s, p.dir.lo + |w|, p.dir.hi);
    GapLies(s, p.fence.hi, p.recs.lo);
    ArrangedIs(t, w, fence, a, p, g0, g1);
    AllParts(s, h, t, w, g0, fence, g1, a);
  }

  lemma {:induction false} ArrangedIs(t: bytes, w: bytes, fence: bytes, a: bytes, p: Places, g0: bytes, g1: bytes)
    requires g0 == Gap(p.dir.lo + |w|, p.dir.hi) && g1 == Gap(p.fence.hi, p.recs.lo) && p.recs.hi == p.recs.lo + |a|
    ensures Arranged(t, w, fence, a, p) == t + (w + g0 + (fence + (g1 + a)))
  {
    NoGap(a, Gap(p.recs.lo + |a|, p.recs.hi));
  }

  lemma {:induction false} NoGap(a: bytes, g: bytes)
    requires g == []
    ensures a + g == a
  {}

  /** Pieces that lie one after another lie together. */
  lemma {:induction false} JoinBack(s: bytes, at: nat, t: bytes, w: bytes, g0: bytes, fence: bytes, g1: bytes, a: bytes)
    requires Lies(s, at, t) && Lies(s, at + |t|, w) && Lies(s, at + |t| + |w|, g0)
    requires Lies(s, at + |t| + |w| + |g0|, fence) && Lies(s, at + |t| + |w| + |g0| + |fence|, g1)
    requires Lies(s, at + |t| + |w| + |g0| + |fence| + |g1|, a)
    ensures Lies(s, at, t + (w + g0 + (fence + (g1 + a))))
  {
    var wg := w + g0;
    var fg := fence + (g1 + a);
    LiesJoin(s, at + |t| + |wg| + |fence|, g1, a);
    LiesJoin(s, at + |t| + |wg|, fence, g1 + a);
    LiesJoin(s, at + |t|, w, g0);
    LiesJoin(s, at + |t|, wg, fg);
    LiesJoin(s, at, t, wg + fg);
  }

  /** The places but for the slack, which is not built. */
  function Built(p: Places, recsLen: nat): Places {
    p.(recs := Span(p.recs.lo, p.recs.lo + recsLen))
  }

  /** The slack is the zeros past what is built. */
  lemma {:induction false} SlackIsHole(t: bytes, w: bytes, fence: bytes, a: bytes, p: Places)
    requires p.recs.hi >= p.recs.lo + |a|
    ensures Arranged(t, w, fence, a, p) == Arranged(t, w, fence, a, Built(p, |a|)) + Gap(p.recs.lo + |a|, p.recs.hi)
  {
    var g0, g1, z := Gap(p.dir.lo + |w|, p.dir.hi), Gap(p.fence.hi, p.recs.lo), Gap(p.recs.lo + |a|, p.recs.hi);
    assert a + Gap(p.recs.lo + |a|, p.recs.lo + |a|) == a;
    assert t + (w + g0 + (fence + (g1 + (a + z)))) == t + (w + g0 + (fence + (g1 + a))) + z;
  }

  /** Bytes that were in place and were not written over are in place. */
  lemma {:induction false} Stands(s: bytes, u: bytes, at: nat, part: bytes)
    requires |s| == |u| && Lies(s, at, part) && forall j :: at <= j < at + |part| ==> u[j] == s[j]
    ensures Lies(u, at, part)
  {
    SameSlice(s, u, at, |part|);
  }

  /** The header, the fence and the hash, each region on its own. */
  method WriteRegions(out: array<byte>, p: Places, h: bytes, t: bytes, fence: bytes)
    requires |h| == p.hash.lo && p.hash.hi == p.hash.lo + |t| && p.dir.lo == p.hash.hi <= p.dir.hi
    requires p.fence == Span(p.dir.hi, p.dir.hi + |fence|) && p.fence.hi <= p.recs.lo <= out.Length
    modifies out
    ensures Lies(out[..], 0, h) && Lies(out[..], p.hash.lo, t) && Lies(out[..], p.fence.lo, fence)
    ensures forall j :: p.dir.lo <= j < p.dir.hi || p.fence.hi <= j < out.Length ==> out[j] == old(out[j])
  {
    PutPair(out, p.fence.lo, fence, p.hash.lo, t);
    ghost var s := out[..];
    Put(out, 0, h);
    assert out[..][0..|h|] == out[0..|h|];
    Stands(s, out[..], p.fence.lo, fence);
    Stands(s, out[..], p.hash.lo, t);
  }

  /** Every region of a buffer that was blank. */
  method WriteSection(out: array<byte>, p: Places, h: bytes, t: bytes, fence: bytes, rs: seq<Rec>, offs: seq<nat>, order: seq<nat>)
    requires AllMade(rs, true) && offs == Offsets(rs, true)
    requires EveryRank(order, |rs|)
    requires |h| == p.hash.lo && p.hash.hi == p.hash.lo + |t| && p.dir.lo == p.hash.hi && p.dir.hi >= p.dir.lo + 4 * |rs|
    requires p.fence == Span(p.dir.hi, p.dir.hi + |fence|) && p.fence.hi <= p.recs.lo
    requires p.recs.hi == p.recs.lo + |AllRecords(rs, true)| == out.Length
    requires Blank(out[..], 0, out.Length)
    modifies out
    ensures out[..] == h + Arranged(t, Words(offs, 4), fence, AllRecords(rs, true), p)
  {
    ghost var a, w := AllRecords(rs, true), Words(offs, 4);
    WordPlaceIs(4, |rs|);
    WriteRecords(out, Regions(p.recs.lo, p.recs.hi - p.recs.lo, p.dir.lo, |rs|), rs, offs, order);
    WriteAround(out, p, h, t, fence, w, a);
  }

  /** The rest of the regions around records and a directory already in place. */
  method WriteAround(out: array<byte>, p: Places, h: bytes, t: bytes, fence: bytes, ghost w: bytes, ghost a: bytes)
    requires |h| == p.hash.lo && p.hash.hi == p.hash.lo + |t| && p.dir.lo == p.hash.hi && p.dir.hi >= p.dir.lo + |w|
    requires p.fence == Span(p.dir.hi, p.dir.hi + |fence|) && p.fence.hi <= p.recs.lo && p.recs.hi == p.recs.lo + |a| == out.Length
    requires Lies(out[..], p.recs.lo, a) && Lies(out[..], p.dir.lo, w)
    requires Blank(out[..], p.dir.lo + |w|, p.dir.hi) && Blank(out[..], p.fence.hi, p.recs.lo)
    modifies out
    ensures out[..] == h + Arranged(t, w, fence, a, p)
  {
    ghost var s := out[..];
    WriteRegions(out, p, h, t, fence);
    Stands(s, out[..], p.recs.lo, a);
    Stands(s, out[..], p.dir.lo, w);
    Assembles(out[..], h, t, w, fence, a, p);
  }

  lemma {:induction false} BuiltFollow(rs: seq<Rec>, stride: nat, insertSlack: nat, recordSlack: bool, cap: nat, l: Layout, p: Places)
    requires stride > 0 && LayoutOf(rs, stride, insertSlack, recordSlack, cap) == Some(l) && p == EncodedPlaces(l, BlobLen(rs, stride))
    ensures var b := Built(p, |AllRecords(rs, true)|);
      && b.hash == Span(HEADER, HEADER + SLOT * cap) && b.dir.lo == b.hash.hi && b.dir.hi >= b.dir.lo + 4 * |rs|
      && b.fence == Span(b.dir.hi, b.dir.hi + FenceOffsLen(DivCeil(|rs|, stride)) + BlobLen(rs, stride)) && b.fence.hi <= b.recs.lo
      && b.recs.hi == b.recs.lo + |AllRecords(rs, true)| <= p.recs.hi == l.total && p.recs.lo == b.recs.lo && l.cap == cap
  {
    LayoutPlaces(|rs|, |AllRecords(rs, true)|, DivCeil(|rs|, stride), BlobLen(rs, stride), insertSlack, recordSlack, cap, l);
  }

  lemma {:induction false} HoleAfter(built: bytes, h: bytes, t: bytes, w: bytes, fence: bytes, a: bytes, p: Places)
    requires p.recs.hi >= p.recs.lo + |a| && built == h + Arranged(t, w, fence, a, Built(p, |a|))
    ensures built + Gap(p.recs.lo + |a|, p.recs.hi) == h + Arranged(t, w, fence, a, p)
  {
    SlackIsHole(t, w, fence, a, p);
    Reassociate(h, Arranged(t, w, fence, a, Built(p, |a|)), Gap(p.recs.lo + |a|, p.recs.hi));
  }

  /** What `Encoded` arranges. */
  lemma {:induction false} EncodedIs(rs: seq<Rec>, table: seq<nat>, stride: nat, gen: nat, l: Layout, p: Places,
    h: bytes, t: bytes, w: bytes, fence: bytes, a: bytes)
    requires stride > 0 && p == EncodedPlaces(l, BlobLen(rs, stride)) && a == AllRecords(rs, true) && w == Words(Offsets(rs, true), 4)
    requires h == HeaderBytes(SectionWords(gen, p, |rs|, l.cap, |a|, stride, l.dirCap))
    requires t == Words(table, SLOT) && fence == FenceBytes(Sampled(KeysOf(rs), stride))
    ensures Encoded(rs, table, stride, gen, l) == h + Arranged(t, w, fence, a, p)
  {}

  /**
   `encode_inline`: the section of a sorted list in one buffer, but for the slack past it, which a file
   holds as a hole. Its records and directory are written in any order, and its hash is filled plainly.
   */
  method EncodeInline(rs: seq<Rec>, gen: nat, insertSlack: nat, recordSlack: bool, target: nat, hash: bytes -> nat, order: seq<nat>)
    returns (r: Option<(bytes, nat)>, ghost table: seq<nat>, ghost l: Option<Layout>)
    requires AllMade(rs, true) && target > 0 && forall k :: hash(k) < U64
    requires EveryRank(order, |rs|)
    ensures r.None? ==>
      |AllRecords(rs, true)| > MAX_RECS || HashCap(|rs|).None?
      || LayoutOf(rs, FenceStride(|rs|, target), insertSlack, recordSlack, HashCap(|rs|).value).None?
    ensures r.Some? ==>
      var stride := FenceStride(|rs|, target);
      && Storage(rs, true, table, stride) && HashMap.FilledWith(table, EntriesOf(rs, true, hash))
      && HashCap(|rs|) == Some(|table|) && l == LayoutOf(rs, stride, insertSlack, recordSlack, |table|) && l.Some?
      && r.value.1 == l.value.total && |r.value.0| <= l.value.total
      && r.value.0 + Gap(|r.value.0|, l.value.total) == Encoded(rs, table, stride, gen, l.value)
  {
    table, l := [], None;
    var plan := PlanInline(rs);
    var cap := HashCapFor(|rs|);
    if plan.None? || cap.None? {
      return None, [], None;
    }
    var (offs, recsLen) := plan.value;
    var stride := FenceStride(|rs|, target);
    var layout := SectionLayout(|rs|, recsLen, DivCeil(|rs|, stride), BlobLen(rs, stride), insertSlack, recordSlack, cap.value);
    if layout.None? {
      return None, [], None;
    }
    var built, x;
    built, x, table := BuildSection(rs, gen, stride, hash, order, offs, recsLen, layout.value, insertSlack, recordSlack, cap.value);
    ghost var w, a := Words(offs, 4), AllRecords(rs, true);
    HoleAfter(built, x.h, x.t, w, x.fence, a, x.p);
    EncodedIs(rs, table, stride, gen, layout.value, x.p, x.h, x.t, w, x.fence, a);
    l := layout;
    r := Some((built, layout.value.total));
  }

  /** The pieces of a section, and the places they were arranged at. */
  datatype Pieces = Pieces(h: bytes, t: bytes, fence: bytes, p: Places)

  /** The planned section, built, and what it was built of. */
  method BuildSection(rs: seq<Rec>, gen: nat, stride: nat, hash: bytes -> nat, order: seq<nat>, offs: seq<nat>, recsLen: nat,
    l: Layout, insertSlack: nat, recordSlack: bool, cap: nat) returns (built: bytes, x: Pieces, ghost table: seq<nat>)
    requires AllMade(rs, true) && stride > 0 && (forall k :: hash(k) < U64) && PowerOfTwo(cap) && |rs| < cap
    requires EveryRank(order, |rs|)
    requires offs == Offsets(rs, true) && recsLen == |AllRecords(rs, true)| <= MAX_RECS
    requires LayoutOf(rs, stride, insertSlack, recordSlack, cap) == Some(l)
    ensures |table| == cap && HashMap.FilledWith(table, EntriesOf(rs, true, hash))
    ensures x.p == EncodedPlaces(l, BlobLen(rs, stride)) && x.p.recs.lo + recsLen <= x.p.recs.hi == l.total && l.cap == cap
    ensures x.h == HeaderBytes(SectionWords(gen, x.p, |rs|, l.cap, recsLen, stride, l.dirCap))
    ensures x.t == Words(table, SLOT) && x.fence == FenceBytes(Sampled(KeysOf(rs), stride))
    ensures built == x.h + Arranged(x.t, Words(offs, 4), x.fence, AllRecords(rs, true), Built(x.p, recsLen))
    ensures |built| == x.p.recs.lo + recsLen
  {
    var fence, slots;
    fence, slots, table := BuildParts(rs, stride, hash, cap);
    var p := EncodedPlaces(l, BlobLen(rs, stride));
    BuiltFollow(rs, stride, insertSlack, recordSlack, cap, l, p);
    var h := HeaderBytes(SectionWords(gen, p, |rs|, l.cap, recsLen, stride, l.dirCap));
    built := FillBuffer(Built(p, recsLen), h, slots, fence, rs, offs, order);
    x := Pieces(h, slots, fence, p);
  }

  /** The fence and the slots of a list. */
  method BuildParts(rs: seq<Rec>, stride: nat, hash: bytes -> nat, cap: nat) returns (fence: bytes, slots: bytes, ghost table: seq<nat>)
    requires |AllRecords(rs, true)| <= MAX_RECS && stride > 0 && (forall k :: hash(k) < U64) && PowerOfTwo(cap) && |rs| < cap
    ensures fence == FenceBytes(Sampled(KeysOf(rs), stride)) && |fence| == FenceOffsLen(DivCeil(|rs|, stride)) + BlobLen(rs, stride)
    ensures |table| == cap && HashMap.FilledWith(table, EntriesOf(rs, true, hash))
    ensures slots == Words(table, SLOT) && |slots| == SLOT * cap
  {
    fence := ListFence((i: nat) => if i < |rs| then rs[i].key else [], stride, rs, |rs|);
    EntriesGood(rs, true, hash);
    var asked;
    slots, asked, table := BuildSlots(EntriesOf(rs, true, hash), cap, false);
    WordPlaceIs(SLOT, cap);
  }

  /** A blank buffer, filled. */
  method FillBuffer(p: Places, h: bytes, t: bytes, fence: bytes, rs: seq<Rec>, offs: seq<nat>, order: seq<nat>) returns (built: bytes)
    requires AllMade(rs, true) && offs == Offsets(rs, true)
    requires EveryRank(order, |rs|)
    requires |h| == p.hash.lo && p.hash.hi == p.hash.lo + |t| && p.dir.lo == p.hash.hi && p.dir.hi >= p.dir.lo + 4 * |rs|
    requires p.fence == Span(p.dir.hi, p.dir.hi + |fence|) && p.fence.hi <= p.recs.lo
    requires p.recs.hi == p.recs.lo + |AllRecords(rs, true)|
    ensures built == h + Arranged(t, Words(offs, 4), fence, AllRecords(rs, true), p) && |built| == p.recs.hi
  {
    var out := new byte[p.recs.hi](_ => 0);
    WriteSection(out, p, h, t, fence, rs, offs, order);
    built := out[..];
  }
}
