/** Both writers' sections, asked: every rank, lookup and seek is answered as the plain list answers it. */
module FlatAnswers {
  import opened Bytes
  import opened Wrappers
  import opened Runs
  import opened Heads
  import opened Records
  import opened RecordWalk
  import opened HashTable
  import HashMap
  import HashFill
  import opened FenceSeek
  import opened FlatParse
  import opened FlatHolds
  import opened FlatLayout
  import opened FlatWrite
  import opened FlatBuild
  import opened FlatEncode
  import opened BlobScan

  // ---------------------------------------------------------------- one section, asked

  /** What a list answers: the record at a rank, a key's extents and tail, and the rank of a query. */
  ghost predicate AsList(rs: seq<Rec>, rank: nat, q: bytes, at: Option<Parsed>, hit: Option<(seq<Ext>, bytes)>, seek: nat) {
    && (at.Some? <==> rank < |rs|)
    && (rank < |rs| && at.Some? ==> at.value.key == rs[rank].key && at.value.exts == rs[rank].exts && at.value.tail == rs[rank].tail)
    && (hit.None? ==> q !in KeysOf(rs))
    && (hit.Some? ==> exists i :: 0 <= i < |rs| && rs[i].key == q && hit.value == (rs[i].exts, rs[i].tail))
    && LowerBound(KeysOf(rs), q, 0, |rs|, seek)
  }

  /** An accepted section that holds a list answers as the list; a seek through its fence never searches every record. */
  method Ask(sec: bytes, rank: nat, q: bytes, hash: bytes -> nat,
    ghost rs: seq<Rec>, ghost compact: bool, ghost table: seq<nat>, ghost stride: nat)
    returns (at: Option<Parsed>, hit: Option<(seq<Ext>, bytes)>, seek: nat, full: bool)
    requires Serves(sec, rs, compact, table) && Storage(rs, compact, table, stride) && Ascending(KeysOf(rs))
    requires (forall k :: hash(k) < U64) && HashMap.FilledWith(table, EntriesOf(rs, compact, hash))
    ensures AsList(rs, rank, q, at, hit, seek) && (|rs| > 0 ==> !full)
  {
    var f := Parse(sec).value;
    RankReads(f, sec, rs, compact, table, rank);
    at := AtFull(f, sec, rank);
    hit := LookupFull(f, sec, q, hash, rs, compact, table);
    seek, full := Seek(f, sec, q, true, rs, compact, table);
  }

  // ---------------------------------------------------------------- limits

  lemma {:induction false} StrideFits(n: nat, target: nat)
    requires target > 0
    ensures 0 < FenceStride(n, target) < 2 * Max(n, FENCE_MIN_STRIDE) + 1
  {
    SomeSampled(n, target);
  }

  /** A streamed section's places are far inside a word. */
  lemma {:induction false} StreamFits(n: nat, recsLen: nat, fenceLen: nat, cap: nat)
    requires 4 * n <= recsLen <= MAX_RECS && cap <= 16 + 3 * n && fenceLen <= 4 * (n + 1) + recsLen
    ensures StreamedPlaces(n, recsLen, fenceLen, cap).hash.hi < U64
  {}

  // ---------------------------------------------------------------- each writer

  /**
   `stream_trailer` to the answers: whatever it writes after a stream's records is accepted and answers as
   the list does.
   */
  method StreamAndAsk(keyAt: nat -> bytes, each: nat -> (nat, nat), gen: nat, lookahead: bool, target: nat, hash: bytes -> nat,
    rs: seq<Rec>, compact: bool, rank: nat, q: bytes)
    returns (written: bool, at: Option<Parsed>, hit: Option<(seq<Ext>, bytes)>, seek: nat, full: bool)
    requires AllMade(rs, compact) && target > 0 && gen < U64 && Ascending(KeysOf(rs)) && (forall k :: hash(k) < U64)
    requires Answers(keyAt, each, rs, compact, hash)
    ensures !written ==> |AllRecords(rs, compact)| > MAX_RECS || 8 * |rs| >= U64
    ensures written ==> AsList(rs, rank, q, at, hit, seek) && (|rs| > 0 ==> !full)
  {
    at, hit, seek, full := None, None, 0, false;
    var r;
    ghost var table;
    r, table := StreamTrailer(|rs|, |AllRecords(rs, compact)|, keyAt, each, gen, lookahead, target, rs, compact, hash);
    if r.None? {
      return false, None, None, 0, false;
    }
    written := true;
    StreamIsServed(rs, compact, table, target, gen);
    var sec := r.value.0 + (AllRecords(rs, compact) + r.value.1);
    at, hit, seek, full := Ask(sec, rank, q, hash, rs, compact, table, FenceStride(|rs|, target));
  }

  lemma {:induction false} StreamIsServed(rs: seq<Rec>, compact: bool, table: seq<nat>, target: nat, gen: nat)
    requires target > 0 && gen < U64 && |table| <= 16 + 3 * |rs| && Storage(rs, compact, table, FenceStride(|rs|, target))
    ensures var stride := FenceStride(|rs|, target);
      Serves(StreamedHeader(rs, compact, table, stride, gen) + (AllRecords(rs, compact) + Trailer(rs, compact, table, stride)), rs, compact, table)
  {
    var stride := FenceStride(|rs|, target);
    StrideFits(|rs|, target);
    RecordRoom(rs, compact, |AllRecords(rs, compact)|);
    BlobRoom(rs, compact, stride);
    SomeSampled(|rs|, stride);
    StreamFits(|rs|, |AllRecords(rs, compact)|, FenceOffsLen(DivCeil(|rs|, stride)) + BlobLen(rs, stride), |table|);
    StreamServes(rs, compact, table, stride, gen);
  }

  /**
   `encode_inline` to the answers: its section, the hole past it read as zeros, is accepted exactly where
   it reserves no second directory or the publish word can name the first, and then answers as the list.
   */
  method EncodeAndAsk(rs: seq<Rec>, gen: nat, insertSlack: nat, recordSlack: bool, target: nat, hash: bytes -> nat, order: seq<nat>,
    rank: nat, q: bytes)
    returns (written: bool, accepted: bool, at: Option<Parsed>, hit: Option<(seq<Ext>, bytes)>, seek: nat, full: bool)
    requires AllMade(rs, true) && target > 0 && gen < U64 && Ascending(KeysOf(rs)) && (forall k :: hash(k) < U64)
    requires EveryRank(order, |rs|)
    ensures !written ==>
      |AllRecords(rs, true)| > MAX_RECS || HashCap(|rs|).None?
      || var l := LayoutOf(rs, FenceStride(|rs|, target), insertSlack, recordSlack, HashCap(|rs|).value); l.None? || l.value.total >= U64
    ensures written ==> HashCap(|rs|).Some?
    ensures written ==> (accepted <==> insertSlack == 0 || HEADER + SLOT * HashCap(|rs|).value < U32)
    ensures accepted ==> written && AsList(rs, rank, q, at, hit, seek) && (|rs| > 0 ==> !full)
  {
    written, accepted, at, hit, seek, full := false, false, None, None, 0, false;
    var r;
    ghost var table, l;
    r, table, l := EncodeInline(rs, gen, insertSlack, recordSlack, target, hash, order);
    if r.None? || r.value.1 >= U64 {
      return;
    }
    written := true;
    StrideFits(|rs|, target);
    RecordRoom(rs, true, |AllRecords(rs, true)|);
    EncodeServes(rs, table, FenceStride(|rs|, target), gen, insertSlack, recordSlack, l.value);
    var sec := r.value.0 + Gap(|r.value.0|, r.value.1);
    accepted := Parse(sec).Some?;
    if accepted {
      at, hit, seek, full := Ask(sec, rank, q, hash, rs, true, table, FenceStride(|rs|, target));
    }
  }

  // ---------------------------------------------------------------- the refused side is reached

  lemma {:induction false} DoublesTo(k: nat, want: nat)
    requires k <= 29 && Pow2(28) < want <= Pow2(29) && Pow2(29) < U64
    ensures Doubled(Pow2(29 - k), want) == Some(Pow2(29))
  {
    if k > 0 {
      DoublesTo(k - 1, want);
      PowOrder(29 - k, 28);
    }
  }

  lemma {:induction false} PowOrder(a: nat, b: nat)
    requires a <= b
    ensures Pow2(a) <= Pow2(b)
    decreases b
  {
    if a < b { PowOrder(a, b - 1); }
  }

  lemma {:induction false} Powers()
    ensures Pow2(28) == 0x1000_0000 && Pow2(29) == 0x2000_0000
  {
    assert Pow2(7) == 128;
    PowSum(7, 7);
    PowSum(14, 14);
    PowSum(1, 28);
  }

  /**
   A list that reaches the refused side: at 201,326,593 keys, one past three quarters of 2^28, the table
   takes 2^29 slots, and its directory starts where a publish word cannot name it; while as many records of
   eight bytes, each a key of four and no extents, are well inside the record limit.
   */
  lemma {:induction false} RefusalReached(keys: nat, key: bytes)
    requires keys == 201326593 && |key| == 4
    ensures HashCap(keys) == Some(Pow2(29)) && HEADER + SLOT * Pow2(29) >= U32
    ensures RecordLenFor(|key|, [], 0, true) == Some(8) && 8 * keys <= MAX_RECS
  {
    Powers();
    var want := DivCeil(keys * HASH_LOAD_DEN, HASH_LOAD_NUM);
    DoublesTo(29, want);
    assert Pow2(0) == 1;
  }

  /** A key deleted: one record, of a run of no values. */
  function Deleted(key: bytes, vs: seq<bytes>): Rec { Rec(key, [InlineExt(vs, true)], RunOf(vs)) }

  /** As many deletes, the keys four bytes each, in order. */
  function Deletes(n: nat): (rs: seq<Rec>)
    ensures |rs| == n
  {
    seq(n, i requires 0 <= i < n => Deleted(BeBytes(i, 4), []))
  }

  lemma {:induction false} DeletedMade(key: bytes, vs: seq<bytes>)
    requires |key| == 4 && vs == []
    ensures Made(Deleted(key, vs), true) && |ImageOf(Deleted(key, vs), true)| == 12
  {
    assert RunOf(vs) == [];
    RunsMake(key, vs, true, true);
    RecordLength(key, [InlineExt(vs, true)], RunOf(vs), true);
  }

  lemma {:induction false} DeletesAscend(n: nat)
    requires n < U32
    ensures Ascending(KeysOf(Deletes(n)))
  {
    forall i, j | 0 <= i < j < n ensures Below(KeysOf(Deletes(n))[i], KeysOf(Deletes(n))[j]) {
      WordSizes();
      BeWord(i, 4);
      BeWord(j, 4);
      BeOrder(BeBytes(i, 4), BeBytes(j, 4));
    }
  }

  lemma {:induction false} TwelveEach(rs: seq<Rec>)
    requires forall i :: 0 <= i < |rs| ==> |ImageOf(rs[i], true)| == 12
    ensures |AllRecords(rs, true)| == 12 * |rs|
    decreases |rs|
  {
    if rs != [] {
      TwelveEach(rs[1..]);
      AllLength(rs, true, 12, 12 * (|rs| - 1));
    }
  }

  lemma {:induction false} LayoutRoom(n: nat, recBytes: nat, fenceN: nat, blobLen: nat, cap: nat)
    requires n < U32 && recBytes <= MAX_RECS && fenceN <= n && blobLen <= recBytes && cap < U32
    ensures var l := SectionLayout(n, recBytes, fenceN, blobLen, 1, false, cap); l.Some? && l.value.total < U64
  {}

  /** They are inside every limit of a layout with insert room. */
  lemma {:induction false} DeletesFit(n: nat, target: nat, cap: nat)
    requires 0 < n && 12 * n <= MAX_RECS && target > 0 && cap < U32
    ensures AllMade(Deletes(n), true) && |AllRecords(Deletes(n), true)| <= MAX_RECS
    ensures var l := LayoutOf(Deletes(n), FenceStride(n, target), 1, false, cap); l.Some? && l.value.total < U64
  {
    var rs, stride := Deletes(n), FenceStride(n, target);
    forall i | 0 <= i < n ensures Made(rs[i], true) && |ImageOf(rs[i], true)| == 12 {
      DeletedMade(BeBytes(i, 4), []);
    }
    TwelveEach(rs);
    StrideFits(n, target);
    SomeSampled(n, stride);
    BlobRoom(rs, true, stride);
    LayoutRoom(n, |AllRecords(rs, true)|, DivCeil(n, stride), BlobLen(rs, stride), cap);
  }

  lemma {:induction false} RefusedCap(n: nat) returns (cap: nat)
    requires n == 201326593
    ensures HashCap(n) == Some(cap) && cap < U32 <= HEADER + SLOT * cap && 12 * n <= MAX_RECS
  {
    RefusalReached(n, BeBytes(0, 4));
    Powers();
    cap := Pow2(29);
  }

  lemma {:induction false} RanksAreAll(n: nat)
    ensures EveryRank(HashFill.Ranks(n), n)
  {
    var order := HashFill.Ranks(n);
    forall i | 0 <= i < n ensures i in order {
      assert order[i] == i;
    }
  }

  /** Any list whose table pushes the directory past 2^32, inside every other limit: its section is complete, and refused. */
  method AskRefused(rs: seq<Rec>, hash: bytes -> nat, target: nat, ghost cap: nat) returns (written: bool, accepted: bool)
    requires AllMade(rs, true) && Ascending(KeysOf(rs)) && target > 0 && forall k :: hash(k) < U64
    requires |AllRecords(rs, true)| <= MAX_RECS && HashCap(|rs|) == Some(cap) && U32 <= HEADER + SLOT * cap
    requires var l := LayoutOf(rs, FenceStride(|rs|, target), 1, false, cap); l.Some? && l.value.total < U64
    ensures written && !accepted
  {
    RanksAreAll(|rs|);
    var at, hit, seek, full;
    written, accepted, at, hit, seek, full := EncodeAndAsk(rs, 0, 1, false, target, hash, HashFill.Ranks(|rs|), 0, []);
  }

  /** There is such a list. */
  method RefusedList(n: nat, hash: bytes -> nat, target: nat) returns (written: bool, accepted: bool)
    requires n == 201326593 && target > 0 && forall k :: hash(k) < U64
    ensures written && !accepted
  {
    ghost var cap := RefusedCap(n);
    DeletesAscend(n);
    DeletesFit(n, target, cap);
    written, accepted := AskRefused(Deletes(n), hash, target, cap);
  }

  // ---------------------------------------------------------------- scanned

  /** The entries a record hands out. */
  function EntriesAt(r: Rec, content: seq<bytes>): seq<BlobScan.Entry> {
    EmitExts(r.key, r.tail, content, r.exts)
  }

  lemma {:induction false} OffsAligned(rs: seq<Rec>, compact: bool, i: nat)
    requires AllMade(rs, compact) && i <= |rs|
    ensures OffOf(rs, compact, i) % 4 == 0
  {
    assert AllMade(rs[..i], compact) by {
      forall k | 0 <= k < i ensures Made(rs[..i][k], compact) { assert Made(rs[k], compact); }
    }
    RecordsAligned(rs[..i], compact, OffOf(rs, compact, i));
  }

  /** Every extent of every record decodes. */
  ghost predicate AllSane(rs: seq<Rec>, content: seq<bytes>) {
    forall r, i :: 0 <= r < |rs| && 0 <= i < |rs[r].exts| ==> SaneExt(rs[r].tail, content, rs[r].exts[i])
  }

  /** A section that holds a list whose extents decode is well formed for a scan, and what the plain walk hands out of it is the list's own entries. */
  lemma {:induction false} SectionScans(f: Flat, sec: bytes, rs: seq<Rec>, compact: bool, table: seq<nat>, content: seq<bytes>)
    requires Holds(f, sec, rs, compact, table) && AllMade(rs, compact) && AllSane(rs, content)
    ensures WellFormed(sec[f.recs.lo..f.recs.hi], sec[f.dir.lo..f.dir.hi], |rs|, content,
      seq(|rs|, r requires 0 <= r < |rs| => EntriesAt(rs[r], content)))
  {
    forall r | 0 <= r < |rs|
      ensures Ranked(sec[f.recs.lo..f.recs.hi], sec[f.dir.lo..f.dir.hi], |rs|, content, r, EntriesAt(rs[r], content))
    {
      OffAtRank(f, sec, rs, compact, table, r);
      FullAtOff(f, sec, rs, compact, table, r);
      OffsAligned(rs, compact, r);
    }
  }

  /** A key's one inline run always decodes. */
  lemma {:induction false} RunsAreSane(vs: seq<bytes>, tomb: bool, content: seq<bytes>)
    requires Storable(vs)
    ensures SaneExt(RunOf(vs), content, InlineExt(vs, tomb))
    ensures EmitExt([], RunOf(vs), content, InlineExt(vs, tomb)) == Pairs([], vs)
  {
    RunRoundTrip(vs, tomb, InlineExt(vs, tomb));
    assert RunOf(vs)[0..|RunOf(vs)|] == RunOf(vs);
  }
}
