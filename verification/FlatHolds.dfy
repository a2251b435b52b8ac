/** What a section holds for a list of records, and that every read of it answers as the list does. */
module FlatHolds {
  import opened Bytes
  import opened Wrappers
  import opened Runs
  import opened Records
  import opened RecordProofs
  import opened RecordWalk
  import opened HashTable
  import HashMap
  import opened FenceSeek
  import opened FlatParse

  // ---------------------------------------------------------------- records by offset

  /** A record a writer makes: where it is compact, what stands for its extent stands for that extent. */
  ghost predicate Made(r: Rec, compact: bool) {
    && Written(r.key, r.exts, r.tail)
    && (compact && Compacts(r.exts) ==> CompactExt(CompactHeader(r.exts[0]), r.tail) == Some(r.exts[0]))
  }

  ghost predicate AllMade(rs: seq<Rec>, compact: bool) {
    forall i {:trigger Made(rs[i], compact)} :: 0 <= i < |rs| ==> Made(rs[i], compact)
  }

  /** A key's encoded run makes such a record. */
  lemma {:induction false} RunsMake(key: bytes, vs: seq<bytes>, tomb: bool, compact: bool)
    requires |key| < U16 && Storable(vs) && |RunOf(vs)| < U32
    ensures Made(Rec(key, [InlineExt(vs, tomb)], RunOf(vs)), compact)
  {
    InlineFits(vs, tomb);
    if |RunOf(vs)| < COMPACT_RUN { CompactRoundTrip(vs, tomb); }
  }

  lemma {:induction false} CompactBack(r: Rec, post: bytes)
    requires Made(r, true) && Compacts(r.exts)
    ensures ParseHead(Head(r.key, COMPACT) + (CompactHeader(r.exts[0]) + (r.tail + post)))
         == Some(Parsed(r.key, r.exts, r.tail, RecordLenCompact(|r.key|, |r.tail|)))
  {
    var e := r.exts[0];
    TailOfOne(r.exts);
    HeaderLen(e, []);
    assert CompactHeader(e) + [] == CompactHeader(e);
    CompactTailReads(CompactHeader(e), e, r.tail, post);
    assert r.exts == [e];
    HeadThenTail(r.key, COMPACT, CompactHeader(e) + (r.tail + post), [e], r.tail, 4 + |r.tail|);
    PadEnds(4, |r.tail|);
  }

  /** A record at its place parses to what it was made of. */
  lemma {:induction false} ParsesBack(r: Rec, compact: bool, buf: bytes, off: nat, post: bytes)
    requires Made(r, compact) && off <= |buf| && buf[off..] == ImageOf(r, compact) + post
    ensures ParseRecord(buf, off) == Some(Parsed(r.key, r.exts, r.tail, |ImageOf(r, compact)|))
  {
    var z := Pad(|r.tail|);
    ImageLength(r, compact);
    Regroup(Head(r.key, CountWord(r.exts, compact)), Body(r.exts, compact), r.tail, z, post);
    if compact && Compacts(r.exts) {
      CompactBack(r, z + post);
    } else {
      FullParses(r.key, r.exts, |r.exts|, r.tail, z + post);
    }
  }

  /** Where each record starts. */
  function OffOf(rs: seq<Rec>, compact: bool, i: nat): nat
    requires i <= |rs|
  {
    |AllRecords(rs[..i], compact)|
  }

  function Offsets(rs: seq<Rec>, compact: bool): (offs: seq<nat>)
    ensures |offs| == |rs|
  {
    seq(|rs|, i requires 0 <= i < |rs| => OffOf(rs, compact, i))
  }

  lemma {:induction false} OffOfEnd(rs: seq<Rec>, compact: bool)
    ensures OffOf(rs, compact, |rs|) == |AllRecords(rs, compact)|
  {
    assert rs[..|rs|] == rs;
  }

  lemma {:induction false} AllSplit(rs: seq<Rec>, compact: bool, i: nat)
    requires i <= |rs|
    ensures AllRecords(rs, compact) == AllRecords(rs[..i], compact) + AllRecords(rs[i..], compact)
  {
    if i > 0 {
      var a, b, c := rs[..i], rs[i..], rs[1..];
      assert a[0] == rs[0] && a[1..] == c[..i - 1] && b == c[i - 1..];
      AllSplit(c, compact, i - 1);
      Reassociate(ImageOf(rs[0], compact), AllRecords(c[..i - 1], compact), AllRecords(b, compact));
    } else {
      assert rs[..0] == [] && rs[0..] == rs;
    }
  }

  lemma {:induction false} Regrouped(a: bytes, b: bytes, c: bytes, d: bytes)
    ensures (a + (b + c) + d)[|a|..] == b + (c + d)
  {}

  /** From a record's offset: it, and the ones after. */
  lemma {:induction false} FromOffset(rs: seq<Rec>, compact: bool, i: nat, buf: bytes, slack: bytes)
    requires i < |rs| && buf == AllRecords(rs, compact) + slack
    ensures OffOf(rs, compact, i) <= |AllRecords(rs, compact)| <= |buf|
    ensures buf[OffOf(rs, compact, i)..] == ImageOf(rs[i], compact) + (AllRecords(rs[i + 1..], compact) + slack)
  {
    AllSplit(rs, compact, i);
    assert rs[i..][0] == rs[i] && rs[i..][1..] == rs[i + 1..];
    Regrouped(AllRecords(rs[..i], compact), ImageOf(rs[i], compact), AllRecords(rs[i + 1..], compact), slack);
  }

  lemma {:induction false} ImageRoom(r: Rec, compact: bool)
    ensures |ImageOf(r, compact)| >= 4
    ensures Made(r, compact) ==> |ImageOf(r, compact)| % 4 == 0
  {
    if Made(r, compact) { RecordLength(r.key, r.exts, r.tail, compact); }
  }

  lemma {:induction false} FoursAdd(a: nat, b: nat)
    requires a % 4 == 0 && b % 4 == 0
    ensures (a + b) % 4 == 0
  {}

  lemma {:induction false} AllLength(rs: seq<Rec>, compact: bool, a: nat, b: nat)
    requires rs != [] && a == |ImageOf(rs[0], compact)| && b == |AllRecords(rs[1..], compact)|
    ensures |AllRecords(rs, compact)| == a + b
  {}

  /** Every record takes at least four bytes. */
  lemma {:induction false} RecordRoom(rs: seq<Rec>, compact: bool, len: nat)
    requires len == |AllRecords(rs, compact)|
    ensures len >= 4 * |rs|
    decreases |rs|
  {
    if rs != [] {
      var a, b := |ImageOf(rs[0], compact)|, |AllRecords(rs[1..], compact)|;
      AllLength(rs, compact, a, b);
      ImageRoom(rs[0], compact);
      RecordRoom(rs[1..], compact, b);
    }
  }

  /** Records end four-aligned. */
  lemma {:induction false} RecordsAligned(rs: seq<Rec>, compact: bool, len: nat)
    requires AllMade(rs, compact) && len == |AllRecords(rs, compact)|
    ensures len % 4 == 0
    decreases |rs|
  {
    if rs != [] {
      var a, b := |ImageOf(rs[0], compact)|, |AllRecords(rs[1..], compact)|;
      AllLength(rs, compact, a, b);
      assert Made(rs[0], compact);
      ImageRoom(rs[0], compact);
      RecordsAligned(rs[1..], compact, b);
      FoursAdd(a, b);
    }
  }

  // ---------------------------------------------------------------- the fence

  /** Every stride-th key. */
  function Sampled(keys: seq<bytes>, stride: nat): (ks: seq<bytes>)
    requires stride > 0
    ensures |ks| == DivCeil(|keys|, stride)
    ensures forall i :: 0 <= i < |ks| ==> RankOf(i, stride) < |keys| && ks[i] == keys[RankOf(i, stride)]
  {
    var n := DivCeil(|keys|, stride);
    assert forall i :: 0 <= i < n ==> RankOf(i, stride) < |keys| by {
      forall i | 0 <= i < n ensures RankOf(i, stride) < |keys| { RankWithin(i, |keys|, stride); }
    }
    seq(n, i requires 0 <= i < n => keys[RankOf(i, stride)])
  }

  /** Where each sampled key starts in the blob, and where the last ends. */
  function FenceOffs(ks: seq<bytes>): (offs: seq<nat>)
    ensures |offs| == |ks| + 1
  {
    seq(|ks| + 1, i requires 0 <= i <= |ks| => |Concat(ks[..i])|)
  }

  lemma {:induction false} BlobSlice(ks: seq<bytes>, i: nat)
    requires i < |ks|
    ensures FenceOffs(ks)[i] <= FenceOffs(ks)[i + 1] <= |Concat(ks)|
    ensures Concat(ks)[FenceOffs(ks)[i]..FenceOffs(ks)[i + 1]] == ks[i]
  {
    ConcatSlice(ks, i);
    ConcatSnoc(ks[..i], ks[i]);
    assert ks[..i + 1] == ks[..i] + [ks[i]];
  }

  lemma {:induction false} ConcatPrefix(ks: seq<bytes>, i: nat)
    requires i <= |ks|
    ensures |Concat(ks[..i])| <= |Concat(ks)|
  {
    if i < |ks| { ConcatSlice(ks, i); } else { assert ks[..i] == ks; }
  }

  lemma {:induction false} OffsFit(ks: seq<bytes>)
    requires |Concat(ks)| < U32
    ensures AllBelow(FenceOffs(ks), U32) && FenceOffs(ks)[|ks|] == |Concat(ks)|
  {
    forall i | 0 <= i <= |ks| ensures FenceOffs(ks)[i] < U32 { ConcatPrefix(ks, i); }
    assert ks[..|ks|] == ks;
  }

  // ---------------------------------------------------------------- what a section holds

  ghost predicate Within(s: Span, len: nat) { s.lo <= s.hi <= len }

  /** A word of a region of words, read where the region is. */
  lemma {:induction false} RegionWord(b: bytes, vs: seq<nat>, rest: bytes, i: nat, at: nat)
    requires b == Words(vs, 4) + rest && i < |vs| && vs[i] < U32 && at == 4 * i
    ensures ReadWord(b, at, 4) == Some(vs[i])
  {
    WordSizes();
    WordPlaceIs(4, i);
    WordRead(vs, 4, i, rest);
  }

  /**
   The view's regions hold the list: its records, their offsets by rank, a table of slots, and where
   there is a fence its sampled keys.
   */
  ghost predicate Holds(f: Flat, sec: bytes, rs: seq<Rec>, compact: bool, table: seq<nat>) {
    && Within(f.hash, |sec|) && Within(f.dir, |sec|) && Within(f.recs, |sec|)
    && f.nkeys == |rs|
    && f.hash.hi == f.hash.lo + SLOT * f.cap && |table| == f.cap && sec[f.hash.lo..f.hash.hi] == Words(table, SLOT)
    && AllRecords(rs, compact) <= sec[f.recs.lo..f.recs.hi] && |AllRecords(rs, compact)| < U32
    && Words(Offsets(rs, compact), 4) <= sec[f.dir.lo..f.dir.hi]
    && (f.fence.n > 0 ==> HoldsFence(f.fence, sec, KeysOf(rs)))
  }

  ghost predicate HoldsFence(fence: Fence, sec: bytes, keys: seq<bytes>) {
    && Within(fence.offs, |sec|) && Within(fence.blob, |sec|)
    && fence.stride > 0 && fence.n == DivCeil(|keys|, fence.stride)
    && var ks := Sampled(keys, fence.stride);
      && |Concat(ks)| < U32
      && sec[fence.offs.lo..fence.offs.hi] == Words(FenceOffs(ks), 4)
      && sec[fence.blob.lo..fence.blob.hi] == Concat(ks)
  }

  // ---------------------------------------------------------------- every rank

  lemma {:induction false} OffsetsFit(rs: seq<Rec>, compact: bool)
    requires |AllRecords(rs, compact)| < U32
    ensures AllBelow(Offsets(rs, compact), U32)
  {
    forall i | 0 <= i < |rs| ensures Offsets(rs, compact)[i] < U32 {
      AllSplit(rs, compact, i);
    }
  }

  lemma {:induction false} Rest(a: bytes, b: bytes) returns (rest: bytes)
    requires a <= b
    ensures b == a + rest
  {
    rest := b[|a|..];
  }

  /** The directory names each rank's record. */
  lemma {:induction false} OffAtRank(f: Flat, sec: bytes, rs: seq<Rec>, compact: bool, table: seq<nat>, rank: nat)
    requires Holds(f, sec, rs, compact, table) && rank < |rs|
    ensures RecordOff(f, sec, rank) == Some(OffOf(rs, compact, rank))
  {
    OffsetsFit(rs, compact);
    var offs := Offsets(rs, compact);
    var rest := Rest(Words(offs, 4), sec[f.dir.lo..f.dir.hi]);
    RegionWord(sec[f.dir.lo..f.dir.hi], offs, rest, rank, 4 * rank);
  }

  /** The record at an offset the directory or a slot names. */
  lemma {:induction false} FullAtOff(f: Flat, sec: bytes, rs: seq<Rec>, compact: bool, table: seq<nat>, i: nat)
    requires Holds(f, sec, rs, compact, table) && AllMade(rs, compact) && i < |rs|
    ensures RecordFull(f, sec, OffOf(rs, compact, i)) ==
      Some(Parsed(rs[i].key, rs[i].exts, rs[i].tail, |ImageOf(rs[i], compact)|))
  {
    var recs := sec[f.recs.lo..f.recs.hi];
    var slack := Rest(AllRecords(rs, compact), recs);
    FromOffset(rs, compact, i, recs, slack);
    ParsesBack(rs[i], compact, recs, OffOf(rs, compact, i), AllRecords(rs[i + 1..], compact) + slack);
  }

  /** Every rank reads as the list's, and none past the last. */
  lemma {:induction false} RankReads(f: Flat, sec: bytes, rs: seq<Rec>, compact: bool, table: seq<nat>, rank: nat)
    requires Holds(f, sec, rs, compact, table) && AllMade(rs, compact)
    ensures rank < |rs| ==> (AtFull(f, sec, rank) ==
      Some(Parsed(rs[rank].key, rs[rank].exts, rs[rank].tail, |ImageOf(rs[rank], compact)|)))
    ensures rank < |rs| ==> KeyAt(f, sec, rank) == Some(rs[rank].key)
    ensures rank >= |rs| ==> AtFull(f, sec, rank).None? && KeyAt(f, sec, rank).None?
  {
    if rank < |rs| {
      OffAtRank(f, sec, rs, compact, table, rank);
      FullAtOff(f, sec, rs, compact, table, rank);
      KeyAgrees(sec[f.recs.lo..f.recs.hi], OffOf(rs, compact, rank));
    }
  }

  // ---------------------------------------------------------------- every seek

  /** The fence of a section that holds one is the writer's own. */
  lemma {:induction false} FenceIsWriters(f: Flat, sec: bytes, keys: seq<bytes>)
    requires f.fence.n > 0 && HoldsFence(f.fence, sec, keys)
    ensures WritersFence((i: nat) => FenceKey(f, sec, i), f.fence.n, f.fence.stride, keys)
  {
    var ks := Sampled(keys, f.fence.stride);
    var offs := sec[f.fence.offs.lo..f.fence.offs.hi];
    OffsFit(ks);
    forall i | 0 <= i < f.fence.n ensures FenceKey(f, sec, i) == Some(ks[i]) {
      assert offs == Words(FenceOffs(ks), 4) + [];
      RegionWord(offs, FenceOffs(ks), [], i, 4 * i);
      RegionWord(offs, FenceOffs(ks), [], i + 1, 4 * (i + 1));
      BlobSlice(ks, i);
    }
  }

  lemma {:induction false} KeysRead(f: Flat, sec: bytes, rs: seq<Rec>, compact: bool, table: seq<nat>)
    requires Holds(f, sec, rs, compact, table) && AllMade(rs, compact)
    ensures Reads((r: nat) => KeyAt(f, sec, r), KeysOf(rs))
  {
    forall r | 0 <= r < |rs| ensures KeyAt(f, sec, r) == Some(rs[r].key) {
      RankReads(f, sec, rs, compact, table, r);
    }
  }

  /**
   `seek_with` over a section: the list's own rank; through the section's own fence, without a search
   of every record.
   */
  method Seek(f: Flat, sec: bytes, q: bytes, fence: bool, ghost rs: seq<Rec>, ghost compact: bool, ghost table: seq<nat>)
    returns (rank: nat, full: bool)
    requires Holds(f, sec, rs, compact, table) && AllMade(rs, compact) && Ascending(KeysOf(rs))
    ensures LowerBound(KeysOf(rs), q, 0, |rs|, rank)
    ensures fence && f.fence.n > 0 ==> !full
  {
    KeysRead(f, sec, rs, compact, table);
    if f.fence.n > 0 { FenceIsWriters(f, sec, KeysOf(rs)); }
    rank, full := SeekWith((r: nat) => KeyAt(f, sec, r), (i: nat) => FenceKey(f, sec, i), f.fence.n, f.fence.stride,
      q, f.nkeys, fence, KeysOf(rs));
  }

  // ---------------------------------------------------------------- every lookup

  /** The keys of a list, each with its hash and where its record lies. */
  function EntriesOf(rs: seq<Rec>, compact: bool, hash: bytes -> nat): (es: seq<Entry>)
    ensures |es| == |rs|
  {
    seq(|rs|, i requires 0 <= i < |rs| => Entry(rs[i].key, hash(rs[i].key), OffOf(rs, compact, i)))
  }

  /** A record's key by its offset, as a probe asks for it. */
  function RecKey(f: Flat, sec: bytes): nat -> Option<bytes> {
    (off: nat) => var p := RecordFull(f, sec, off); if p.None? then None else Some(p.value.key)
  }

  lemma {:induction false} DistinctKeys(rs: seq<Rec>, compact: bool, hash: bytes -> nat)
    requires Ascending(KeysOf(rs))
    ensures HashMap.Distinct(EntriesOf(rs, compact, hash))
  {
    var keys := KeysOf(rs);
    forall i, j | 0 <= i < j < |rs| ensures rs[i].key != rs[j].key {
      assert Below(keys[i], keys[j]);
      BelowIrreflexive(keys[i]);
    }
  }

  /** The entries are what the hash and the section's records say. */
  lemma {:induction false} EntriesFaithful(f: Flat, sec: bytes, rs: seq<Rec>, compact: bool, table: seq<nat>, hash: bytes -> nat)
    requires Holds(f, sec, rs, compact, table) && AllMade(rs, compact)
    requires forall k :: hash(k) < U64
    ensures HashMap.Faithful(EntriesOf(rs, compact, hash), hash, RecKey(f, sec))
  {
    OffsetsFit(rs, compact);
    forall i | 0 <= i < |rs|
      ensures HashMap.Kept(hash, RecKey(f, sec), rs[i].key, OffOf(rs, compact, i))
    {
      assert Offsets(rs, compact)[i] < U32;
      FullAtOff(f, sec, rs, compact, table, i);
    }
  }

  lemma {:induction false} TableDenotes(f: Flat, sec: bytes, rs: seq<Rec>, compact: bool, table: seq<nat>, hash: bytes -> nat)
    requires Holds(f, sec, rs, compact, table) && AllMade(rs, compact) && Ascending(KeysOf(rs))
    requires (forall k :: hash(k) < U64) && HashMap.FilledWith(table, EntriesOf(rs, compact, hash))
    ensures HashMap.Denotes(table, hash, RecKey(f, sec), HashMap.MapOf(EntriesOf(rs, compact, hash)))
  {
    var es := EntriesOf(rs, compact, hash);
    var placed: map<nat, nat> :| Probed(es, table, placed) && forall i :: 0 <= i < |es| ==> i in placed;
    DistinctKeys(rs, compact, hash);
    EntriesFaithful(f, sec, rs, compact, table, hash);
    HashMap.ProbedDenotes(es, table, placed, hash, RecKey(f, sec));
  }

  lemma {:induction false} SlotsAre(f: Flat, sec: bytes, rs: seq<Rec>, compact: bool, table: seq<nat>)
    requires Holds(f, sec, rs, compact, table) && AllBelow(table, U64)
    ensures Slots(f, sec) == table
  {
    WordSizes();
    WordsBack(table, SLOT, |table|, []);
    assert Words(table, SLOT) + [] == Words(table, SLOT) && table[..|table|] == table;
  }

  lemma {:induction false} SlotsFit(table: seq<nat>, es: seq<Entry>)
    requires HashMap.FilledWith(table, es)
    ensures AllBelow(table, U64)
  {
    var placed: map<nat, nat> :| Probed(es, table, placed) && forall i :: 0 <= i < |es| ==> i in placed;
    forall s | 0 <= s < |table| ensures table[s] < U64 {
      if table[s] != 0 {
        assert Owned(placed, s);
        var i :| i in placed && placed[i] == s;
        assert table[placed[i]] == SlotWord(es[i]);
        PackFits(es[i].hash, es[i].off);
      }
    }
  }

  lemma {:induction false} PackFits(h: nat, off: nat)
    requires h < U64 && off < U32
    ensures Pack(h, off) < U64
  {}

  /** `lookup_full` over a section: the key's own extents and tail, or that it is absent. */
  method LookupFull(f: Flat, sec: bytes, q: bytes, hash: bytes -> nat,
    ghost rs: seq<Rec>, ghost compact: bool, ghost table: seq<nat>) returns (r: Option<(seq<Ext>, bytes)>)
    requires Holds(f, sec, rs, compact, table) && AllMade(rs, compact) && Ascending(KeysOf(rs))
    requires (forall k :: hash(k) < U64) && HashMap.FilledWith(table, EntriesOf(rs, compact, hash))
    ensures r.None? ==> q !in KeysOf(rs)
    ensures r.Some? ==> exists i :: 0 <= i < |rs| && rs[i].key == q && r.value == (rs[i].exts, rs[i].tail)
  {
    ghost var es := EntriesOf(rs, compact, hash);
    SlotsFit(table, es);
    SlotsAre(f, sec, rs, compact, table);
    TableDenotes(f, sec, rs, compact, table, hash);
    var off := HashMap.Lookup(Slots(f, sec), q, hash, RecKey(f, sec), HashMap.MapOf(es));
    if off.None? {
      forall i | 0 <= i < |rs| ensures rs[i].key != q {
        DistinctKeys(rs, compact, hash);
        HashMap.MapHolds(es, i);
      }
      return None;
    }
    ghost var i := HashMap.MapOnly(es, q);
    DistinctKeys(rs, compact, hash);
    HashMap.MapHolds(es, i);
    FullAtOff(f, sec, rs, compact, table, i);
    var p := RecordFull(f, sec, off.value);
    r := Some((p.value.exts, p.value.tail));
  }
}
