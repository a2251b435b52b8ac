/** Records read back: every field of a record a writer makes, and a walk over records end to end. */
module RecordProofs {
  import opened Bytes
  import opened Varint
  import opened Runs
  import opened Wrappers
  import opened Records

  // ---------------------------------------------------------------- the parts

  lemma {:induction false} HalfWord(v: nat)
    requires v < U16
    ensures LeNat(LeBytes(v, 2)) == v
  {
    LeRoundTrip(v, 2);
    WordSizes();
    SmallMod(v, U16);
  }

  lemma {:induction false} ExtReads(e: Ext, post: bytes)
    requires e.Fits()
    ensures ReadExt(ExtBytes(e) + post) == e
  {
    var vs := [e.block, e.off, e.len, e.last, e.count];
    WordSizes();
    WordRead(vs, 4, 0, post);
    WordRead(vs, 4, 1, post);
    WordRead(vs, 4, 2, post);
    WordRead(vs, 4, 3, post);
    WordRead(vs, 4, 4, post);
  }

  ghost predicate AllFit(exts: seq<Ext>) {
    forall i {:trigger exts[i].Fits()} :: 0 <= i < |exts| ==> exts[i].Fits()
  }

  lemma {:induction false} ExtsRead(exts: seq<Ext>, post: bytes)
    requires AllFit(exts)
    ensures ReadExts(AllExtBytes(exts) + post, |exts|) == exts
    decreases |exts|
  {
    if exts != [] {
      var rest := AllExtBytes(exts[1..]) + post;
      assert AllExtBytes(exts) + post == ExtBytes(exts[0]) + rest;
      ExtReads(exts[0], rest);
      assert (ExtBytes(exts[0]) + rest)[EXT_BYTES..] == rest;
      ExtsRead(exts[1..], post);
      assert exts == [exts[0]] + exts[1..];
    }
  }

  // ---------------------------------------------------------------- the extent that was not stored

  /** Every value takes at least a byte of its run. */
  lemma {:induction false} PrefixedAtLeast(vs: seq<bytes>)
    ensures |AllPrefixed(vs)| >= |vs|
  {
    if vs != [] { PrefixedAtLeast(vs[1..]); }
  }

  lemma {:induction false} RunAtLeast(vs: seq<bytes>)
    ensures |RunOf(vs)| >= |vs|
  {
    if OneWidth(vs) {
      ConcatLength(vs, |vs[0]|);
      AtLeastTimes(|vs|, |vs[0]|);
    } else {
      PrefixedAtLeast(vs);
    }
  }

  lemma {:induction false} AtLeastTimes(n: nat, w: nat)
    requires w > 0
    ensures n * w >= n
  {}

  lemma {:induction false} PrefixedSplit(vs: seq<bytes>, i: nat)
    requires i < |vs|
    ensures AllPrefixed(vs) == AllPrefixed(vs[..i]) + AllPrefixed(vs[i..])
  {
    if i > 0 {
      PrefixedSplit(vs[1..], i - 1);
      assert vs[..i][1..] == vs[1..][..i - 1] && vs[1..][i - 1..] == vs[i..];
    }
  }

  /** One prefix walked over. */
  lemma {:induction false} WalkStep(run: bytes, p: nat, v: bytes, rest: bytes, i: nat)
    requires p <= |run| && run[p..] == Prefixed(v) + rest && rest != [] && |v| < U64 && i > 0
    ensures p + |Prefixed(v)| < |run|
    ensures WalkTo(run, p, i) == WalkTo(run, p + |Prefixed(v)|, i - 1)
  {
    ReadsAt(run, p, v, rest);
    var r := GetUvarint(run, p);
    assert |run[r.0 + r.1..]| == |rest|;
  }

  lemma {:induction false} RunFrom(vs: seq<bytes>, k: nat)
    requires k < |vs|
    ensures |AllPrefixed(vs[..k])| < |AllPrefixed(vs)|
    ensures AllPrefixed(vs)[|AllPrefixed(vs[..k])|..] == Prefixed(vs[k]) + AllPrefixed(vs[k + 1..])
    ensures |AllPrefixed(vs[..k + 1])| == |AllPrefixed(vs[..k])| + |Prefixed(vs[k])|
  {
    PrefixedSplit(vs, k);
    assert vs[k..][1..] == vs[k + 1..];
    PrefixStep(vs, k);
  }

  /** One prefix walked over, by place in the run. */
  lemma {:induction false} WalkOne(run: bytes, vs: seq<bytes>, k: nat, i: nat)
    requires run == AllPrefixed(vs) && k + 1 < |vs| && |vs[k]| < U64 && i > 0
    ensures |AllPrefixed(vs[..k])| < |AllPrefixed(vs[..k + 1])| < |run|
    ensures WalkTo(run, |AllPrefixed(vs[..k])|, i) == WalkTo(run, |AllPrefixed(vs[..k + 1])|, i - 1)
  {
    RunFrom(vs, k);
    RunFrom(vs, k + 1);
    WalkStep(run, |AllPrefixed(vs[..k])|, vs[k], AllPrefixed(vs[k + 1..]), i);
  }

  /** The walk over `i` prefixes of a run from record `k` reaches record `k + i`. */
  lemma {:induction false} WalkReaches(run: bytes, vs: seq<bytes>, k: nat, i: nat)
    requires run == AllPrefixed(vs) && k + i < |vs|
    requires forall j :: 0 <= j < |vs| ==> |vs[j]| < U64
    ensures |AllPrefixed(vs[..k])| < |run|
    ensures WalkTo(run, |AllPrefixed(vs[..k])|, i) == Some(|AllPrefixed(vs[..k + i])|)
    decreases i
  {
    if i == 0 {
      RunFrom(vs, k);
    } else {
      WalkOne(run, vs, k, i);
      WalkReaches(run, vs, k + 1, i - 1);
    }
  }

  lemma {:induction false} CompactBits(n: nat, fixed: bool, tomb: bool)
    requires n < COMPACT_RUN
    ensures var c := n + C_FIXED * B2N(fixed) + C_TOMB * B2N(tomb);
      c < U16 && c % C_FIXED == n && ((c / C_FIXED) % 2 == 1 <==> fixed) && ((c / C_TOMB) % 2 == 1 <==> tomb)
  {}

  /** A compact header's two words. */
  lemma {:induction false} HeaderReads(vs: seq<bytes>, tomb: bool)
    requires Storable(vs) && |RunOf(vs)| < COMPACT_RUN
    ensures var h := CompactHeader(InlineExt(vs, tomb));
      LeNat(h[..2]) == |RunOf(vs)|
      && LeNat(h[2..]) == |vs| + C_FIXED * B2N(OneWidth(vs)) + C_TOMB * B2N(tomb)
  {
    var e := InlineExt(vs, tomb);
    var c := |vs| + C_FIXED * B2N(OneWidth(vs)) + C_TOMB * B2N(tomb);
    RunAtLeast(vs);
    CountReads(|vs|, OneWidth(vs), tomb, e);
    CompactBits(|vs|, OneWidth(vs), tomb);
    HalfWord(e.len);
    HalfWord(c);
    assert CompactHeader(e)[..2] == LeBytes(e.len, 2) && CompactHeader(e)[2..] == LeBytes(c, 2);
  }

  /** Where the last record starts, recomputed. */
  lemma {:induction false} LastRebuilt(vs: seq<bytes>)
    requires Storable(vs) && |vs| > 1
    ensures OneWidth(vs) ==> Each(|RunOf(vs)|, |vs|) == Some(|vs[0]|)
    ensures !OneWidth(vs) ==> WalkTo(RunOf(vs), 0, |vs| - 1) == Some(LastOf(vs))
  {
    if OneWidth(vs) {
      ConcatLength(vs, |vs[0]|);
      FixedReads(|vs|, |vs[0]|);
    } else {
      WalkReaches(RunOf(vs), vs, 0, |vs| - 1);
      assert vs[..0] == [];
    }
  }

  lemma {:induction false} LastOfOne(vs: seq<bytes>)
    requires |vs| <= 1
    ensures LastOf(vs) == 0
  {
    if |vs| == 1 && !OneWidth(vs) { assert vs[..0] == []; }
  }

  /** The extent rebuilt from a compact header and its run is the one the writer had. */
  lemma {:induction false} CompactRoundTrip(vs: seq<bytes>, tomb: bool)
    requires Storable(vs) && |RunOf(vs)| < COMPACT_RUN
    ensures CompactExt(CompactHeader(InlineExt(vs, tomb)), RunOf(vs)) == Some(InlineExt(vs, tomb))
  {
    HeaderReads(vs, tomb);
    RunAtLeast(vs);
    CompactBits(|vs|, OneWidth(vs), tomb);
    if |vs| > 1 { LastRebuilt(vs); } else { LastOfOne(vs); }
  }

  // ---------------------------------------------------------------- whole records

  /** A record a writer makes: its tail is exactly what its inline runs reach. */
  ghost predicate Written(key: bytes, exts: seq<Ext>, tail: bytes) {
    |key| < U16 && |exts| < COMPACT && AllFit(exts) && |tail| == TailLen(exts)
  }

  lemma {:induction false} InlineFits(vs: seq<bytes>, tomb: bool)
    requires Storable(vs) && |RunOf(vs)| < U32
    ensures InlineExt(vs, tomb).Fits() && TailLen([InlineExt(vs, tomb)]) == |RunOf(vs)|
  {
    CountReads(|vs|, OneWidth(vs), tomb, InlineExt(vs, tomb));
    LastWithin(vs);
    assert [InlineExt(vs, tomb)][1..] == [];
  }

  lemma {:induction false} LastWithin(vs: seq<bytes>)
    ensures LastOf(vs) <= |RunOf(vs)|
  {
    if vs != [] {
      if OneWidth(vs) {
        ConcatLength(vs, |vs[0]|);
        OneFewer(|vs|, |vs[0]|);
      } else {
        PrefixedSplit(vs, |vs| - 1);
      }
    }
  }

  lemma {:induction false} OneFewer(n: nat, w: nat)
    requires n > 0
    ensures (n - 1) * w <= n * w
  {}

  /** A record's head: its key, its count word, and where its tail starts. */
  lemma {:induction false} HeadReads(key: bytes, n: nat, rest: bytes)
    requires |key| < U16 && n < U16
    ensures var s := Head(key, n) + rest;
      && |s| >= AlignUp(4 + |key|) && LeNat(s[..2]) == |key| && LeNat(s[2..4]) == n
      && s[4..4 + |key|] == key && s[AlignUp(4 + |key|)..] == rest
  {
    HalfWord(|key|);
    HalfWord(n);
    var s := Head(key, n) + rest;
    assert s[..2] == LeBytes(|key|, 2) && s[2..4] == LeBytes(n, 2);
  }

  lemma {:induction false} PadEnds(at: nat, used: nat)
    requires at % 4 == 0
    ensures AlignUp(at + used) == at + AlignUp(used)
  {}

  /** Past the head, a record parses as its tail does. */
  lemma {:induction false} HeadThenTail(key: bytes, n: nat, rest: bytes, exts: seq<Ext>, tail: bytes, used: nat)
    requires |key| < U16 && n < U16 && ParseTail(n, rest) == Some((exts, tail, used))
    ensures ParseHead(Head(key, n) + rest) == Some(Parsed(key, exts, tail, AlignUp(4 + |key|) + AlignUp(used)))
  {
    HeadReads(key, n, rest);
    PadEnds(AlignUp(4 + |key|), used);
  }

  lemma {:induction false} TailReads(exts: seq<Ext>, pre: bytes, tail: bytes, post: bytes)
    requires |tail| == TailLen(exts)
    ensures TailFrom(exts, |pre|, pre + (tail + post)) == Some((exts, tail, |pre| + |tail|))
  {
    assert (pre + (tail + post))[|pre|..|pre| + |tail|] == tail;
  }

  lemma {:induction false} FullTail(exts: seq<Ext>, n: nat, tail: bytes, post: bytes)
    requires n == |exts| < COMPACT && AllFit(exts) && |tail| == TailLen(exts)
    ensures ParseTail(n, AllExtBytes(exts) + (tail + post)) == Some((exts, tail, EXT_BYTES * n + |tail|))
  {
    ExtsRead(exts, tail + post);
    TailReads(exts, AllExtBytes(exts), tail, post);
  }

  lemma {:induction false} Regroup(a: bytes, b: bytes, c: bytes, d: bytes, e: bytes)
    ensures a + (b + (c + d)) + e == a + (b + (c + (d + e)))
  {}

  lemma {:induction false} FullPads(klen: nat, n: nat, t: nat)
    ensures AlignUp(4 + klen) + AlignUp(EXT_BYTES * n + t) == RecordLenTail(klen, n, t)
  {
    PadEnds(EXT_BYTES * n, t);
  }

  /** A full record parses to what it was made of. */
  lemma {:induction false} FullParses(key: bytes, exts: seq<Ext>, n: nat, tail: bytes, post: bytes)
    requires n == |exts| && Written(key, exts, tail)
    ensures ParseHead(Head(key, n) + (AllExtBytes(exts) + (tail + post)))
         == Some(Parsed(key, exts, tail, RecordLenTail(|key|, n, |tail|)))
  {
    FullTail(exts, n, tail, post);
    HeadThenTail(key, n, AllExtBytes(exts) + (tail + post), exts, tail, EXT_BYTES * n + |tail|);
    FullPads(|key|, n, |tail|);
  }

  lemma {:induction false} CompactTailReads(h: bytes, e: Ext, tail: bytes, post: bytes)
    requires |h| == 4 && LeNat(h[..2]) == |tail| && CompactExt(h, tail) == Some(e)
    ensures ParseTail(COMPACT, h + (tail + post)) == Some(([e], tail, 4 + |tail|))
  {
    var rest := h + (tail + post);
    assert rest[..4] == h && rest[..2] == h[..2] && rest[4..4 + |tail|] == tail;
  }

  /** A compact record parses to the extent it does not hold. */
  lemma {:induction false} CompactParses(key: bytes, vs: seq<bytes>, tomb: bool, post: bytes)
    requires |key| < U16 && Storable(vs) && |RunOf(vs)| < COMPACT_RUN
    ensures var e, tail := InlineExt(vs, tomb), RunOf(vs);
      ParseHead(Head(key, COMPACT) + (CompactHeader(e) + (tail + post)))
        == Some(Parsed(key, [e], tail, RecordLenCompact(|key|, |tail|)))
  {
    var e, tail := InlineExt(vs, tomb), RunOf(vs);
    HeaderReads(vs, tomb);
    CompactRoundTrip(vs, tomb);
    CompactTailReads(CompactHeader(e), e, tail, post);
    HeadThenTail(key, COMPACT, CompactHeader(e) + (tail + post), [e], tail, 4 + |tail|);
    PadEnds(4, |tail|);
  }

  /** A key's values through the encoder, a record of either form, the parser and the decoder. */
  lemma {:induction false} RecordRoundTrip(key: bytes, vs: seq<bytes>, tomb: bool, compact: bool, buf: bytes, off: nat, post: bytes)
    requires |key| < U16 && Storable(vs) && |RunOf(vs)| < U32
    requires off <= |buf| && buf[off..] == RecordOf(key, [InlineExt(vs, tomb)], RunOf(vs), compact) + post
    ensures var p := ParseRecord(buf, off);
      && p.Some? && p.value.key == key && p.value.exts == [InlineExt(vs, tomb)] && p.value.tail == RunOf(vs)
      && p.value.len == SegmentRecordLen(|key|, |RunOf(vs)|, true, compact)
      && p.value.len == |RecordOf(key, [InlineExt(vs, tomb)], RunOf(vs), compact)|
      && ValuesOf(p.value.tail, p.value.exts[0]) == Decoded(vs, None)
      && p.value.exts[0].Records() == |vs| && p.value.exts[0].IsTombstone() == tomb
      && p.value.exts[0].last == LastOf(vs)
  {
    var e, tail := InlineExt(vs, tomb), RunOf(vs);
    RunRoundTrip(vs, tomb, e);
    InlineFits(vs, tomb);
    if compact && Compacts([e]) {
      Regroup(Head(key, COMPACT), CompactHeader(e), tail, Pad(|tail|), post);
      CompactParses(key, vs, tomb, Pad(|tail|) + post);
    } else {
      Regroup(Head(key, 1), AllExtBytes([e]), tail, Pad(|tail|), post);
      FullParses(key, [e], 1, tail, Pad(|tail|) + post);
    }
  }
}
