/** Both writers' layouts of a section, each accepted by the parser and holding the list it was made from. */
module FlatLayout {
  import opened Bytes
  import opened Wrappers
  import opened Runs
  import opened RecordWalk
  import opened HashTable
  import opened FenceSeek
  import opened FlatParse
  import opened FlatHolds

  const MAX_RECS: nat := U32 - 1

  // ---------------------------------------------------------------- the header

  function HeaderBytes(ws: seq<nat>): (h: bytes)
    requires |ws| == HEADER_WORDS
    ensures |h| == HEADER
  {
    HeaderRoom();
    LeBytes(MAGIC, 4) + LeBytes(VERSION, 4) + Words(ws, 8)
  }

  lemma {:induction false} Whole32(v: nat)
    requires v < U32
    ensures LeNat(LeBytes(v, 4)) == v
  {
    WordSizes();
    LeRoundTrip(v, 4);
    SmallMod(v, U32);
  }

  lemma {:induction false} HeaderParts(ws: seq<nat>, rest: bytes)
    requires |ws| == HEADER_WORDS
    ensures var sec := HeaderBytes(ws) + rest;
      sec[..4] == LeBytes(MAGIC, 4) && sec[4..8] == LeBytes(VERSION, 4) && sec[8..HEADER] == Words(ws, 8)
  {
    HeaderRoom();
  }

  /** A section's header words are read as they were written. */
  lemma {:induction false} HeaderBack(ws: seq<nat>, rest: bytes)
    requires |ws| == HEADER_WORDS && AllBelow(ws, U64)
    ensures var sec := HeaderBytes(ws) + rest; Parse(sec) == ParseWords(sec, ws)
  {
    HeaderParts(ws, rest);
    HeaderRoom();
    Whole32(MAGIC);
    Whole32(VERSION);
    WordSizes();
    WordsBack(ws, 8, HEADER_WORDS, []);
    assert Words(ws, 8) + [] == Words(ws, 8) && ws[..HEADER_WORDS] == ws;
  }

  // ---------------------------------------------------------------- regions, wherever they lie

  predicate Apart(a: Span, b: Span) { a.hi <= b.lo || b.hi <= a.lo }

  /** Where a writer puts the regions: the hash, the directory, the records and the fence. */
  datatype Places = Places(hash: Span, dir: Span, recs: Span, fence: Span)

  predicate PlacesFit(p: Places, len: nat) {
    && Inside(p.hash, len) && Inside(p.dir, len) && Inside(p.recs, len) && Inside(p.fence, len)
    && Apart(p.hash, p.dir) && Apart(p.hash, p.recs) && Apart(p.hash, p.fence)
    && Apart(p.dir, p.recs) && Apart(p.dir, p.fence) && Apart(p.recs, p.fence)
  }

  /** The word that names the live directory and its count of keys; bits shifted past the word are lost. */
  function DirState(at: nat, n: nat): nat { (at * U32) % U64 + n }

  /** The header words of a section without a checksum row. */
  function SectionWords(gen: nat, p: Places, n: nat, cap: nat, recsLen: nat, stride: nat, dirCap: nat): (ws: seq<nat>)
    requires stride > 0 && p.recs.lo <= p.recs.hi
    ensures |ws| == HEADER_WORDS
  {
    [gen, 0, 0, 0, 0, 0, n, cap, p.hash.lo, p.dir.lo, p.recs.lo, recsLen, p.recs.hi - p.recs.lo, recsLen,
     p.fence.lo, DivCeil(n, stride), stride, dirCap, if dirCap == 0 then 0 else DirState(p.dir.lo, n), 0, 0, 0, 0]
  }

  /** The fence's bytes: the offsets, then the keys; nothing without keys. */
  function FenceBytes(ks: seq<bytes>): (b: bytes)
    ensures |b| == if ks == [] then 0 else 4 * (|ks| + 1) + |Concat(ks)|
  {
    if ks == [] then []
    else
      WordPlaceIs(4, |ks| + 1);
      Words(FenceOffs(ks), 4) + Concat(ks)
  }

  /** The bytes at a place. */
  ghost predicate Lies(b: bytes, at: nat, part: bytes) {
    at + |part| <= |b| && b[at..at + |part|] == part
  }

  /** The regions lie where the places say. */
  ghost predicate Laid(sec: bytes, p: Places, rs: seq<Rec>, compact: bool, table: seq<nat>, stride: nat, dirCap: nat)
    requires stride > 0
  {
    && PlacesFit(p, |sec|) && |sec| < U64
    && Lies(sec, p.hash.lo, Words(table, SLOT)) && p.hash.hi == p.hash.lo + SLOT * |table|
    && Lies(sec, p.recs.lo, AllRecords(rs, compact)) && p.recs.hi >= p.recs.lo + |AllRecords(rs, compact)|
    && Lies(sec, p.dir.lo, Words(Offsets(rs, compact), 4))
    && p.dir.hi == p.dir.lo + (if dirCap == 0 then 4 * |rs| else 8 * dirCap) && (dirCap > 0 ==> dirCap >= |rs|)
    && var ks := Sampled(KeysOf(rs), stride);
      Lies(sec, p.fence.lo, FenceBytes(ks)) && p.fence.hi == p.fence.lo + |FenceBytes(ks)|
  }

  /** What the records a section can hold need of it. */
  ghost predicate Storage(rs: seq<Rec>, compact: bool, table: seq<nat>, stride: nat) {
    && AllMade(rs, compact) && |AllRecords(rs, compact)| <= MAX_RECS
    && PowerOfTwo(|table|) && |rs| < |table| && stride > 0
  }

  lemma {:induction false} KeyRoom(r: Rec, compact: bool)
    ensures |r.key| <= |ImageOf(r, compact)|
  {}

  /** A rank's key lies whole in its own record, past every rank before. */
  lemma {:induction false} RoomStep(rs: seq<Rec>, compact: bool, was: nat, rank: nat)
    requires was <= rank < |rs|
    ensures OffOf(rs, compact, was) + |rs[rank].key| <= OffOf(rs, compact, rank + 1)
  {
    OffsAscend(rs, compact, was, rank);
    OffStep(rs, compact, rank);
    KeyRoom(rs[rank], compact);
  }

  /** One past the rank of the last of `k` entries. */
  function PastEntry(k: nat, stride: nat): nat {
    if k == 0 then 0 else RankOf(k - 1, stride) + 1
  }

  lemma {:induction false} PastStep(k: nat, stride: nat)
    requires k > 0 && stride > 0
    ensures PastEntry(k - 1, stride) <= RankOf(k - 1, stride)
  {
    if k > 1 { RankStep(k - 1, stride); }
  }

  /** Each sampled key lies whole in its own record. */
  lemma {:induction false} SampledRoom(rs: seq<Rec>, compact: bool, stride: nat, ks: seq<bytes>, k: nat)
    requires stride > 0 && ks == Sampled(KeysOf(rs), stride) && k <= |ks|
    ensures PastEntry(k, stride) <= |rs|
    ensures |Concat(ks[..k])| <= OffOf(rs, compact, PastEntry(k, stride))
    decreases k
  {
    if k > 0 {
      SampledRoom(rs, compact, stride, ks, k - 1);
      PastStep(k, stride);
      RoomStep(rs, compact, PastEntry(k - 1, stride), RankOf(k - 1, stride));
      ConcatSnoc(ks[..k - 1], ks[k - 1]);
      assert ks[..k] == ks[..k - 1] + [ks[k - 1]];
    }
  }

  lemma {:induction false} OffStep(rs: seq<Rec>, compact: bool, i: nat)
    requires i < |rs|
    ensures OffOf(rs, compact, i + 1) == OffOf(rs, compact, i) + |ImageOf(rs[i], compact)|
  {
    AllSplit(rs[..i + 1], compact, i);
    assert rs[..i + 1][..i] == rs[..i] && rs[..i + 1][i..] == [rs[i]];
    assert [rs[i]][1..] == [];
  }

  lemma {:induction false} OffsAscend(rs: seq<Rec>, compact: bool, i: nat, j: nat)
    requires i <= j <= |rs|
    ensures OffOf(rs, compact, i) <= OffOf(rs, compact, j)
  {
    AllSplit(rs[..j], compact, i);
    assert rs[..j][..i] == rs[..i];
  }

  /** The blob is no longer than the records. */
  lemma {:induction false} BlobRoom(rs: seq<Rec>, compact: bool, stride: nat)
    requires stride > 0
    ensures |Concat(Sampled(KeysOf(rs), stride))| <= |AllRecords(rs, compact)|
  {
    var ks := Sampled(KeysOf(rs), stride);
    SampledRoom(rs, compact, stride, ks, |ks|);
    assert ks[..|ks|] == ks && rs[..|rs|] == rs;
    OffsAscend(rs, compact, PastEntry(|ks|, stride), |rs|);
  }

  lemma {:induction false} SomeSampled(n: nat, stride: nat)
    requires stride > 0
    ensures DivCeil(n, stride) <= n && (n > 0 ==> DivCeil(n, stride) > 0)
  {
    var c := DivCeil(n, stride);
    if c > 0 { Scaled2(c - 1, 1, stride); }
  }

  lemma {:induction false} Narrow(b: bytes, at: nat, x: bytes, y: bytes)
    requires Lies(b, at, x + y)
    ensures Lies(b, at, x) && Lies(b, at + |x|, y)
  {
    assert b[at..at + |x|] == b[at..at + |x + y|][..|x|];
    assert b[at + |x|..at + |x + y|] == b[at..at + |x + y|][|x|..];
  }

  lemma {:induction false} LastWord(ks: seq<bytes>)
    requires |Concat(ks)| < U32
    ensures var w := Words(FenceOffs(ks), 4);
      |w| == 4 * |ks| + 4 && LeNat(w[4 * |ks|..4 * |ks| + 4]) == |Concat(ks)|
  {
    var w := Words(FenceOffs(ks), 4);
    WordPlaceIs(4, |ks| + 1);
    OffsFit(ks);
    assert w + [] == w;
    RegionWord(w, FenceOffs(ks), [], |ks|, 4 * |ks|);
  }

  lemma {:induction false} LiesWord(sec: bytes, at: nat, w: bytes, i: nat)
    requires Lies(sec, at, w) && i + 4 <= |w|
    ensures sec[at + i..at + i + 4] == w[i..i + 4]
  {
    SubSlice(sec, at, at + |w|, i, i + 4);
  }

  /** The last offset is the blob's length. */
  lemma {:induction false} LastOff(sec: bytes, at: nat, ks: seq<bytes>)
    requires ks != [] && |Concat(ks)| < U32 && Lies(sec, at, FenceBytes(ks))
    ensures var end := at + 4 * (|ks| + 1);
      && Lies(sec, at, Words(FenceOffs(ks), 4)) && Lies(sec, end, Concat(ks))
      && |Words(FenceOffs(ks), 4)| == 4 * (|ks| + 1) && LeNat(sec[end - 4..end]) == |Concat(ks)|
  {
    var w := Words(FenceOffs(ks), 4);
    LastWord(ks);
    Narrow(sec, at, w, Concat(ks));
    LiesWord(sec, at, w, 4 * |ks|);
  }

  /** A fence apart from the other regions is taken as it lies. */
  lemma {:induction false} FenceParses(sec: bytes, p: Places, nkeys: nat, n: nat, stride: nat, len: nat)
    requires PlacesFit(p, |sec|) && stride > 0 && n == DivCeil(nkeys, stride) && 0 < n <= nkeys
    requires p.fence.hi == p.fence.lo + 4 * (n + 1) + len
    requires LeNat(sec[p.fence.lo + 4 * n..p.fence.lo + 4 * (n + 1)]) == len
    ensures var end := p.fence.lo + 4 * (n + 1);
      ParseFence(sec, p.fence.lo, n, stride, nkeys, p.hash, p.dir, p.recs)
        == Fence(Span(p.fence.lo, end), Span(end, p.fence.hi), n, stride)
  {}

  /** The fence the parser takes. */
  lemma {:induction false} FenceTaken(sec: bytes, p: Places, rs: seq<Rec>, compact: bool, table: seq<nat>, stride: nat, dirCap: nat)
    requires Storage(rs, compact, table, stride) && Laid(sec, p, rs, compact, table, stride, dirCap)
    ensures var f := ParseFence(sec, p.fence.lo, DivCeil(|rs|, stride), stride, |rs|, p.hash, p.dir, p.recs);
      f.n == DivCeil(|rs|, stride) && (f.n > 0 ==> HoldsFence(f, sec, KeysOf(rs)))
  {
    SomeSampled(|rs|, stride);
    BlobRoom(rs, compact, stride);
    if |rs| > 0 { FenceKept(sec, p, KeysOf(rs), stride); }
  }

  lemma {:induction false} FenceKept(sec: bytes, p: Places, keys: seq<bytes>, stride: nat)
    requires PlacesFit(p, |sec|) && stride > 0 && 0 < DivCeil(|keys|, stride) <= |keys|
    requires var ks := Sampled(keys, stride);
      |Concat(ks)| < U32 && Lies(sec, p.fence.lo, FenceBytes(ks)) && p.fence.hi == p.fence.lo + |FenceBytes(ks)|
    ensures var f := ParseFence(sec, p.fence.lo, DivCeil(|keys|, stride), stride, |keys|, p.hash, p.dir, p.recs);
      f.n == DivCeil(|keys|, stride) && HoldsFence(f, sec, keys)
  {
    var ks := Sampled(keys, stride);
    LastOff(sec, p.fence.lo, ks);
    FenceParses(sec, p, |keys|, |ks|, stride, |Concat(ks)|);
  }

  lemma {:induction false} StateBack(at: nat, n: nat)
    requires n < U32
    ensures DirState(at, n) / U32 == at % U32 && DirState(at, n) % U32 == n
  {
    var q, r := at / U32, at % U32;
    assert at * U32 == U64 * q + r * U32;
    ModUnique(at * U32, U64, q, r * U32);
    ModUnique(DirState(at, n), U32, r, n);
  }

  /** The directory is taken, one buffer or two, unless two lie past what the publish word can name. */
  lemma {:induction false} LiveTaken(at: nat, dirCap: nat, n: nat)
    requires n < U32 && at + 8 * dirCap < U64 && (dirCap > 0 ==> n <= dirCap)
    ensures var l := Live(at, dirCap, if dirCap == 0 then 0 else DirState(at, n), n);
      && (l.Some? <==> dirCap == 0 || at < U32) && (l.Some? ==> l.value == (at, n))
  {
    if dirCap > 0 {
      StateBack(at, n);
      SmallOrLost(at);
    }
  }

  lemma {:induction false} SmallOrLost(at: nat)
    ensures at % U32 == at <==> at < U32
    ensures at % U32 <= at
  {}

  lemma {:induction false} WordsFit(gen: nat, p: Places, n: nat, cap: nat, recsLen: nat, stride: nat, dirCap: nat, len: nat)
    requires gen < U64 && PlacesFit(p, len) && len < U64 && n < U32 && cap < U64 && 0 < stride < U64 && dirCap < U64
    requires p.recs.hi >= p.recs.lo + recsLen
    ensures AllBelow(SectionWords(gen, p, n, cap, recsLen, stride, dirCap), U64)
  {
    SomeSampled(n, stride);
    StateFits(p.dir.lo, n);
  }

  lemma {:induction false} StateFits(at: nat, n: nat)
    requires n < U32
    ensures DirState(at, n) < U64
  {
    var q, r := at / U32, at % U32;
    assert at * U32 == U64 * q + r * U32;
    ModUnique(at * U32, U64, q, r * U32);
  }

  /** The view of a section whose regions lie as its header says. */
  function ViewOf(sec: bytes, p: Places, n: nat, cap: nat, recsLen: nat, stride: nat, dirCap: nat): Flat
    requires stride > 0
  {
    Flat(p.hash, p.dir, p.recs, cap, n, ParseFence(sec, p.fence.lo, DivCeil(n, stride), stride, n, p.hash, p.dir, p.recs),
         p.dir.lo, dirCap, recsLen, 0, 0)
  }

  lemma {:induction false} ApartRegions(p: Places, len: nat)
    requires PlacesFit(p, len)
    ensures Inside(p.hash, len) && Inside(p.dir, len) && Inside(p.recs, len) && Disjoint(p.hash, p.dir, p.recs)
  {}

  /** What the parser takes from the words. */
  ghost predicate Say(w: seq<nat>, p: Places, n: nat, cap: nat, len: nat, stride: nat, dirCap: nat)
    requires stride > 0 && p.recs.lo <= p.recs.hi
  {
    && |w| == HEADER_WORDS && w[6] == n && w[7] == cap && w[8] == p.hash.lo && w[9] == p.dir.lo && w[10] == p.recs.lo
    && w[11] == len && w[12] == p.recs.hi - p.recs.lo && w[13] == len
    && w[14] == p.fence.lo && w[15] == DivCeil(n, stride) && w[16] == stride
    && w[17] == dirCap && w[18] == (if dirCap == 0 then 0 else DirState(p.dir.lo, n)) && w[19] == 0 && w[20] == 0
  }

  lemma {:induction false} SectionSays(gen: nat, p: Places, n: nat, cap: nat, len: nat, stride: nat, dirCap: nat)
    requires stride > 0 && p.recs.lo <= p.recs.hi
    ensures Say(SectionWords(gen, p, n, cap, len, stride, dirCap), p, n, cap, len, stride, dirCap)
  {}

  /** Words naming regions that fit are taken, unless the publish word cannot name the directory. */
  lemma {:induction false} WordsTaken(sec: bytes, w: seq<nat>, p: Places, n: nat, cap: nat, len: nat, stride: nat, dirCap: nat)
    requires PlacesFit(p, |sec|) && |sec| < U64 && stride > 0 && PowerOfTwo(cap) && n < cap && n < U32
    requires p.hash.hi == p.hash.lo + SLOT * cap && p.recs.hi >= p.recs.lo + len
    requires p.dir.hi == p.dir.lo + (if dirCap == 0 then 4 * n else 8 * dirCap) && (dirCap > 0 ==> dirCap >= n)
    requires Say(w, p, n, cap, len, stride, dirCap)
    ensures ParseWords(sec, w) ==
      if dirCap > 0 && p.dir.lo >= U32 then None else Some(ViewOf(sec, p, n, cap, len, stride, dirCap))
  {
    ApartRegions(p, |sec|);
    LiveTaken(p.dir.lo, dirCap, n);
    SmallMod(p.dir.lo + 8 * dirCap, U64);
  }

  /**
   A section laid out by its words is accepted, its regions where they were put; refused only where it
   reserves a second directory and the publish word cannot name the first.
   */
  lemma {:induction false} LaidIsParsed(sec: bytes, gen: nat, p: Places, rs: seq<Rec>, compact: bool, table: seq<nat>,
    stride: nat, dirCap: nat, len: nat)
    requires Storage(rs, compact, table, stride) && Laid(sec, p, rs, compact, table, stride, dirCap)
    requires len == |AllRecords(rs, compact)|
    ensures ParseWords(sec, SectionWords(gen, p, |rs|, |table|, len, stride, dirCap)) ==
      if dirCap > 0 && p.dir.lo >= U32 then None else Some(ViewOf(sec, p, |rs|, |table|, len, stride, dirCap))
  {
    RecordRoom(rs, compact, len);
    SectionSays(gen, p, |rs|, |table|, len, stride, dirCap);
    WordsTaken(sec, SectionWords(gen, p, |rs|, |table|, len, stride, dirCap), p, |rs|, |table|, len, stride, dirCap);
  }

  lemma {:induction false} LiesBegins(sec: bytes, s: Span, part: bytes)
    requires Lies(sec, s.lo, part) && s.lo + |part| <= s.hi <= |sec|
    ensures part <= sec[s.lo..s.hi]
  {
    assert sec[s.lo..s.hi][..|part|] == sec[s.lo..s.lo + |part|];
  }

  lemma {:induction false} TableReads(sec: bytes, s: Span, table: seq<nat>)
    requires Lies(sec, s.lo, Words(table, SLOT)) && s.hi == s.lo + SLOT * |table| && s.hi <= |sec|
    ensures sec[s.lo..s.hi] == Words(table, SLOT)
  {
    WordPlaceIs(SLOT, |table|);
  }

  lemma {:induction false} DirReads(sec: bytes, s: Span, offs: seq<nat>)
    requires Lies(sec, s.lo, Words(offs, 4)) && s.hi >= s.lo + 4 * |offs| && s.hi <= |sec|
    ensures Words(offs, 4) <= sec[s.lo..s.hi]
  {
    WordPlaceIs(4, |offs|);
    LiesBegins(sec, s, Words(offs, 4));
  }

  /** The regions, read where they were put. */
  lemma {:induction false} RegionsRead(sec: bytes, p: Places, rs: seq<Rec>, compact: bool, table: seq<nat>,
    stride: nat, dirCap: nat)
    requires stride > 0 && Laid(sec, p, rs, compact, table, stride, dirCap)
    ensures PlacesFit(p, |sec|) && p.hash.hi == p.hash.lo + SLOT * |table|
    ensures sec[p.hash.lo..p.hash.hi] == Words(table, SLOT)
    ensures AllRecords(rs, compact) <= sec[p.recs.lo..p.recs.hi]
    ensures Words(Offsets(rs, compact), 4) <= sec[p.dir.lo..p.dir.hi]
  {
    TableReads(sec, p.hash, table);
    DirReads(sec, p.dir, Offsets(rs, compact));
    LiesBegins(sec, p.recs, AllRecords(rs, compact));
  }

  /** A view of those regions holds the list. */
  lemma {:induction false} LaidHolds(f: Flat, sec: bytes, p: Places, rs: seq<Rec>, compact: bool, table: seq<nat>,
    stride: nat, dirCap: nat)
    requires Storage(rs, compact, table, stride) && Laid(sec, p, rs, compact, table, stride, dirCap)
    requires f.hash == p.hash && f.dir == p.dir && f.recs == p.recs && f.nkeys == |rs| && f.cap == |table|
    requires f.fence.n > 0 ==> HoldsFence(f.fence, sec, KeysOf(rs))
    ensures Holds(f, sec, rs, compact, table)
  {
    RegionsRead(sec, p, rs, compact, table, stride, dirCap);
  }

  /** An accepted section that holds the list: what both writers come to. */
  ghost predicate Serves(sec: bytes, rs: seq<Rec>, compact: bool, table: seq<nat>) {
    Parse(sec).Some? && Holds(Parse(sec).value, sec, rs, compact, table)
      && (|rs| > 0 ==> Parse(sec).value.fence.n > 0)
  }

  lemma {:induction false} LaidServes(rest: bytes, gen: nat, p: Places, rs: seq<Rec>, compact: bool, table: seq<nat>,
    stride: nat, dirCap: nat)
    requires Storage(rs, compact, table, stride) && gen < U64 && stride < U64 && dirCap < U64
    requires p.recs.lo <= p.recs.hi
    requires var ws := SectionWords(gen, p, |rs|, |table|, |AllRecords(rs, compact)|, stride, dirCap);
      Laid(HeaderBytes(ws) + rest, p, rs, compact, table, stride, dirCap)
    ensures var sec := HeaderBytes(SectionWords(gen, p, |rs|, |table|, |AllRecords(rs, compact)|, stride, dirCap)) + rest;
      && (Parse(sec).Some? <==> dirCap == 0 || p.dir.lo < U32)
      && (Parse(sec).Some? ==> Serves(sec, rs, compact, table))
  {
    var len := |AllRecords(rs, compact)|;
    var ws := SectionWords(gen, p, |rs|, |table|, len, stride, dirCap);
    var sec := HeaderBytes(ws) + rest;
    RecordRoom(rs, compact, len);
    WordsFit(gen, p, |rs|, |table|, len, stride, dirCap, |sec|);
    HeaderBack(ws, rest);
    LaidIsParsed(sec, gen, p, rs, compact, table, stride, dirCap, len);
    FenceTaken(sec, p, rs, compact, table, stride, dirCap);
    LaidHolds(ViewOf(sec, p, |rs|, |table|, len, stride, dirCap), sec, p, rs, compact, table, stride, dirCap);
    SomeSampled(|rs|, stride);
  }
}
