/** The trailer written after streamed records: its fence, directory and table, and the header that names them. */
module FlatBuild {
  import opened Bytes
  import opened Wrappers
  import opened Runs
  import opened RecordWalk
  import opened HashTable
  import HashMap
  import HashFill
  import opened FenceSeek
  import opened FlatParse
  import opened FlatHolds
  import opened FlatLayout
  import opened FlatWrite

  // ---------------------------------------------------------------- shared pieces

  /** The fence: the offsets grow beside the blob, and one more offset ends it. */
  method BuildFence(keyAt: nat -> bytes, fenceN: nat, stride: nat, ghost keys: seq<bytes>) returns (b: bytes)
    requires stride > 0 && fenceN == DivCeil(|keys|, stride)
    requires forall i :: 0 <= i < |keys| ==> keyAt(i) == keys[i]
    ensures b == FenceBytes(Sampled(keys, stride))
  {
    if fenceN == 0 {
      return [];
    }
    ghost var ks := Sampled(keys, stride);
    var offs, blob: bytes := [], [];
    var i := 0;
    while i < fenceN
      invariant i <= fenceN
      invariant blob == Concat(ks[..i]) && offs == Words(FenceOffs(ks)[..i], 4)
    {
      RankIs(i, stride);
      NextOff(ks, i, |blob|);
      NextBlob(ks, i, blob);
      offs := offs + LeBytes(|blob|, 4);
      blob := blob + keyAt(i * stride);
      i := i + 1;
    }
    assert ks[..i] == ks;
    LastOffset(ks, blob);
    b := offs + LeBytes(|blob|, 4) + blob;
  }

  lemma {:induction false} RankIs(i: nat, stride: nat)
    ensures RankOf(i, stride) == i * stride
  {}

  lemma {:induction false} WordsSnoc(vs: seq<nat>, i: nat, n: nat)
    requires i < |vs|
    ensures Words(vs[..i + 1], n) == Words(vs[..i], n) + LeBytes(vs[i], n)
  {
    assert vs[..i + 1][..i] == vs[..i];
  }

  lemma {:induction false} NextBlob(ks: seq<bytes>, i: nat, blob: bytes)
    requires i < |ks| && blob == Concat(ks[..i])
    ensures Concat(ks[..i + 1]) == blob + ks[i]
  {
    ConcatSnoc(ks[..i], ks[i]);
    assert ks[..i + 1] == ks[..i] + [ks[i]];
  }

  lemma {:induction false} NextOff(ks: seq<bytes>, i: nat, len: nat)
    requires i < |ks| && len == FenceOffs(ks)[i]
    ensures Words(FenceOffs(ks)[..i + 1], 4) == Words(FenceOffs(ks)[..i], 4) + LeBytes(len, 4)
  {
    WordsSnoc(FenceOffs(ks), i, 4);
  }

  lemma {:induction false} LastOffset(ks: seq<bytes>, blob: bytes)
    requires blob == Concat(ks)
    ensures Words(FenceOffs(ks), 4) == Words(FenceOffs(ks)[..|ks|], 4) + LeBytes(|blob|, 4)
  {
    WordsSnoc(FenceOffs(ks), |ks|, 4);
    assert FenceOffs(ks)[..|ks| + 1] == FenceOffs(ks) && ks[..|ks|] == ks;
  }

  /** The directory: each key's offset as it was asked for. */
  method BuildDir(asked: seq<nat>, es: seq<Entry>, ghost offs: seq<nat>) returns (b: bytes)
    requires |offs| == |es| && asked == HashFill.Ranks(|es|)
    requires forall i :: 0 <= i < |es| ==> es[i].off == offs[i]
    ensures b == Words(offs, 4)
  {
    b := [];
    var i := 0;
    while i < |asked|
      invariant i <= |asked| && b == Words(offs[..i], 4)
    {
      WordsSnoc(offs, i, 4);
      b := b + LeBytes(es[asked[i]].off, 4);
      i := i + 1;
    }
    assert offs[..i] == offs;
  }

  /** A table's bytes. */
  method TableBytes(t: array<nat>) returns (b: bytes)
    ensures b == Words(t[..], SLOT)
  {
    b := [];
    var s := 0;
    while s < t.Length
      invariant s <= t.Length && b == Words(t[..s], SLOT)
    {
      WordsSnoc(t[..], s, SLOT);
      assert t[..][..s + 1] == t[..s + 1] && t[..][..s] == t[..s];
      b := b + LeBytes(t[s], SLOT);
      s := s + 1;
    }
    assert t[..s] == t[..];
  }

  /** A filled table's bytes, and what the fill asked for. */
  method BuildSlots(es: seq<Entry>, cap: nat, lookahead: bool) returns (b: bytes, asked: seq<nat>, ghost table: seq<nat>)
    requires PowerOfTwo(cap) && |es| < cap && HashFill.AllGood(es)
    ensures |table| == cap && HashMap.FilledWith(table, es) && b == Words(table, SLOT)
    ensures asked == HashFill.Ranks(|es|)
  {
    var t := new nat[cap](_ => 0);
    if lookahead {
      asked := HashFill.FillHashAhead(t, es);
    } else {
      asked := HashFill.FillHash(t, es);
    }
    HashFill.FilledFills(es, cap);
    table := t[..];
    b := TableBytes(t);
  }

  // ---------------------------------------------------------------- stream_trailer

  lemma {:induction false} EntriesGood(rs: seq<Rec>, compact: bool, hash: bytes -> nat)
    requires |AllRecords(rs, compact)| < U32 && forall k :: hash(k) < U64
    ensures HashFill.AllGood(EntriesOf(rs, compact, hash))
  {
    OffsetsFit(rs, compact);
    forall i | 0 <= i < |rs| ensures OffOf(rs, compact, i) < U32 {
      assert Offsets(rs, compact)[i] < U32;
    }
  }

  /** The key and offset of each record a stream laid down, as its caller answers for them. */
  ghost predicate Answers(keyAt: nat -> bytes, each: nat -> (nat, nat), rs: seq<Rec>, compact: bool, hash: bytes -> nat) {
    forall i :: 0 <= i < |rs| ==>
      keyAt(i) == rs[i].key && each(i) == (OffOf(rs, compact, i), hash(rs[i].key))
  }

  /** The regions appended in turn, each after its padding. */
  method JoinTrailer(fence: bytes, dir: bytes, slots: bytes, p: Places) returns (t: bytes)
    requires p.recs.hi <= p.fence.lo && p.fence.hi == p.fence.lo + |fence| && p.fence.hi <= p.dir.lo
    requires p.dir.hi == p.dir.lo + |dir| && p.dir.hi <= p.hash.lo && p.hash.hi == p.hash.lo + |slots|
    ensures t == StreamArranged(slots, dir, fence, p) && |t| == p.hash.hi - p.recs.hi
  {
    t := Gap(p.recs.hi, p.fence.lo) + fence;
    t := t + Gap(p.fence.hi, p.dir.lo) + dir;
    t := t + Gap(p.dir.hi, p.hash.lo) + slots;
    Grouped(Gap(p.recs.hi, p.fence.lo), fence, Gap(p.fence.hi, p.dir.lo), dir, Gap(p.dir.hi, p.hash.lo), slots);
  }

  lemma {:induction false} Grouped(a: bytes, b: bytes, c: bytes, d: bytes, e: bytes, f: bytes)
    ensures a + b + c + d + e + f == a + (b + (c + (d + (e + f))))
  {}

  /** The entries asked of the caller. */
  function Asked(n: nat, keyAt: nat -> bytes, each: nat -> (nat, nat)): (es: seq<Entry>)
    ensures |es| == n
  {
    seq(n, i requires 0 <= i < n => Entry(keyAt(i), each(i).1, each(i).0))
  }

  lemma {:induction false} AskedAre(n: nat, keyAt: nat -> bytes, each: nat -> (nat, nat), rs: seq<Rec>, compact: bool, hash: bytes -> nat)
    requires n == |rs| && Answers(keyAt, each, rs, compact, hash)
    ensures Asked(n, keyAt, each) == EntriesOf(rs, compact, hash)
  {}

  /** The directory and the slots, from one pass over the keys. */
  method BuildTables(es: seq<Entry>, cap: nat, lookahead: bool, ghost rs: seq<Rec>, ghost compact: bool, ghost hash: bytes -> nat)
    returns (dir: bytes, slots: bytes, ghost table: seq<nat>)
    requires PowerOfTwo(cap) && |rs| < cap && |AllRecords(rs, compact)| < U32 && (forall k :: hash(k) < U64)
    requires es == EntriesOf(rs, compact, hash)
    ensures |table| == cap && HashMap.FilledWith(table, es)
    ensures dir == Words(Offsets(rs, compact), 4) && slots == Words(table, SLOT)
    ensures |dir| == 4 * |rs| && |slots| == SLOT * cap
  {
    EntriesGood(rs, compact, hash);
    var asked;
    slots, asked, table := BuildSlots(es, cap, lookahead);
    dir := BuildDir(asked, es, Offsets(rs, compact));
    WordPlaceIs(4, |rs|);
    WordPlaceIs(SLOT, cap);
  }

  lemma {:induction false} TrailerIs(rs: seq<Rec>, compact: bool, table: seq<nat>, stride: nat, dir: bytes, slots: bytes, fence: bytes, p: Places)
    requires stride > 0 && p == PlacesOf(rs, compact, table, stride)
    requires slots == Words(table, SLOT) && dir == Words(Offsets(rs, compact), 4) && fence == FenceBytes(Sampled(KeysOf(rs), stride))
    ensures Trailer(rs, compact, table, stride) == StreamArranged(slots, dir, fence, p)
  {}

  /** The fence of a list's keys, as long as the layout allows it. */
  method ListFence(keyAt: nat -> bytes, stride: nat, ghost rs: seq<Rec>, n: nat) returns (b: bytes)
    requires stride > 0 && n == |rs| && forall i :: 0 <= i < n ==> keyAt(i) == rs[i].key
    ensures b == FenceBytes(Sampled(KeysOf(rs), stride))
    ensures |b| == FenceOffsLen(DivCeil(n, stride)) + BlobLen(rs, stride)
  {
    var fenceN := DivCeil(n, stride);
    b := BuildFence(keyAt, fenceN, stride, KeysOf(rs));
    FenceLen(rs, stride);
  }

  /** The regions of a streamed section follow one another. */
  lemma {:induction false} StreamedFollow(n: nat, recsLen: nat, fenceLen: nat, cap: nat)
    ensures var p := StreamedPlaces(n, recsLen, fenceLen, cap);
      && p.recs == Span(HEADER, HEADER + recsLen) && p.recs.hi <= p.fence.lo && p.fence.hi == p.fence.lo + fenceLen
      && p.fence.hi <= p.dir.lo && p.dir.hi == p.dir.lo + 4 * n && p.dir.hi <= p.hash.lo && p.hash.hi == p.hash.lo + SLOT * cap
  {}

  /** The trailer of a table of `cap` slots. */
  method BuildTrailer(n: nat, recsLen: nat, keyAt: nat -> bytes, es: seq<Entry>, stride: nat, cap: nat, lookahead: bool,
    ghost rs: seq<Rec>, ghost compact: bool, ghost hash: bytes -> nat)
    returns (t: bytes, p: Places, ghost table: seq<nat>)
    requires n == |rs| && recsLen == |AllRecords(rs, compact)| <= MAX_RECS && stride > 0 && PowerOfTwo(cap) && n < cap
    requires (forall k :: hash(k) < U64) && es == EntriesOf(rs, compact, hash)
    requires forall i :: 0 <= i < n ==> keyAt(i) == rs[i].key
    ensures |table| == cap && HashMap.FilledWith(table, es)
    ensures t == Trailer(rs, compact, table, stride) && p == PlacesOf(rs, compact, table, stride)
    ensures HEADER + recsLen + |t| == p.hash.hi
  {
    var fence := ListFence(keyAt, stride, rs, n);
    var dir, slots;
    dir, slots, table := BuildTables(es, cap, lookahead, rs, compact, hash);
    p := StreamedPlaces(n, recsLen, |fence|, cap);
    StreamedFollow(n, recsLen, |fence|, cap);
    t := JoinTrailer(fence, dir, slots, p);
    TrailerIs(rs, compact, table, stride, dir, slots, fence, p);
  }

  /**
   `stream_trailer`: what follows the records a stream laid down, and the header before them. The
   directory's word and the table's slot of a key come from one question, put rank by rank.
   */
  method StreamTrailer(n: nat, recsLen: nat, keyAt: nat -> bytes, each: nat -> (nat, nat), gen: nat, lookahead: bool,
    target: nat, ghost rs: seq<Rec>, ghost compact: bool, ghost hash: bytes -> nat)
    returns (r: Option<(bytes, bytes, nat)>, ghost table: seq<nat>)
    requires n == |rs| && recsLen == |AllRecords(rs, compact)| && AllMade(rs, compact) && target > 0
    requires (forall k :: hash(k) < U64) && Answers(keyAt, each, rs, compact, hash)
    ensures r.None? ==> recsLen > MAX_RECS || 8 * n >= U64
    ensures r.Some? ==>
      var stride := FenceStride(n, target);
      && Storage(rs, compact, table, stride) && HashMap.FilledWith(table, EntriesOf(rs, compact, hash))
      && r.value.0 == StreamedHeader(rs, compact, table, stride, gen) && r.value.1 == Trailer(rs, compact, table, stride)
      && r.value.2 == HEADER + recsLen + |r.value.1| == PlacesOf(rs, compact, table, stride).hash.hi
      && |table| <= 16 + 3 * n
  {
    table := [];
    if recsLen > MAX_RECS {
      return None, [];
    }
    var cap := HashCapFor(n);
    if cap.None? {
      return None, [];
    }
    var stride := FenceStride(n, target);
    AskedAre(n, keyAt, each, rs, compact, hash);
    var t, p;
    t, p, table := BuildTrailer(n, recsLen, keyAt, Asked(n, keyAt, each), stride, cap.value, lookahead, rs, compact, hash);
    r := Some((HeaderBytes(SectionWords(gen, p, n, cap.value, recsLen, stride, 0)), t, p.hash.hi));
  }
}
