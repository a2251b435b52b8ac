/** The two writers' sections, byte by byte: one laid out whole, one whose records were streamed. */
module FlatWrite {
  import opened Bytes
  import opened Wrappers
  import opened Runs
  import opened Records
  import opened RecordWalk
  import opened HashTable
  import opened FlatParse
  import opened FlatHolds
  import opened FlatLayout

  // ---------------------------------------------------------------- the layout's arithmetic

  const SLACK_NUM: nat := 1
  const SLACK_DEN: nat := 2

  datatype Layout = Layout(cap: nat, dirCap: nat, fenceOffsOff: nat, fenceBlobOff: nat, recsOff: nat, recsCap: nat, total: nat)

  /** The directory's bytes: one buffer, or two of the reserved size; `None` past a 64-bit word. */
  function DirBytes(n: nat, insertSlack: nat): Option<nat> {
    if insertSlack == 0 then Some(4 * n)
    else if 8 * (n + insertSlack) >= U64 then None
    else Some(8 * (n + insertSlack))
  }

  function FenceOffsLen(fenceN: nat): nat { if fenceN == 0 then 0 else 4 * (fenceN + 1) }

  /** Where the regions land, from the key count, the record bytes and the fence's two sizes. */
  function SectionLayout(n: nat, recBytes: nat, fenceN: nat, blobLen: nat, insertSlack: nat, recordSlack: bool, cap: nat):
    (l: Option<Layout>)
  {
    var recsCap := recBytes + if recordSlack then recBytes * SLACK_NUM / SLACK_DEN else 0;
    var dir := DirBytes(n, insertSlack);
    if recBytes > MAX_RECS || recsCap > MAX_RECS || dir.None? then None
    else
      var fenceOffs := HEADER + cap * SLOT + dir.value;
      var blob := fenceOffs + FenceOffsLen(fenceN);
      var recsOff := AlignUp(blob + blobLen);
      Some(Layout(cap, if insertSlack == 0 then 0 else n + insertSlack, fenceOffs, blob, recsOff, recsCap, recsOff + recsCap))
  }

  /** Its regions fit in its total, in order, and nothing is lost between them but padding. */
  lemma {:induction false} LayoutFits(n: nat, recBytes: nat, fenceN: nat, blobLen: nat, insertSlack: nat, recordSlack: bool, cap: nat)
    requires SectionLayout(n, recBytes, fenceN, blobLen, insertSlack, recordSlack, cap).Some?
    ensures var l := SectionLayout(n, recBytes, fenceN, blobLen, insertSlack, recordSlack, cap).value;
      && PlacesFit(EncodedPlaces(l, blobLen), l.total) && l.recsCap >= recBytes
      && l.recsOff < l.fenceBlobOff + blobLen + 4 && l.recsOff % 4 == 0
      && (insertSlack == 0 && !recordSlack ==>
            l.total < HEADER + 8 * cap + 4 * n + FenceOffsLen(fenceN) + blobLen + recBytes + 4)
  {}

  function EncodedPlaces(l: Layout, blobLen: nat): Places {
    Places(Span(HEADER, HEADER + l.cap * SLOT), Span(HEADER + l.cap * SLOT, l.fenceOffsOff),
           Span(l.recsOff, l.recsOff + l.recsCap), Span(l.fenceOffsOff, l.fenceBlobOff + blobLen))
  }

  // ---------------------------------------------------------------- pieces end to end

  function Zeros(n: nat): (z: bytes)
    ensures |z| == n
  {
    seq(n, i => 0)
  }

  lemma {:induction false} LiesFirst(a: bytes, rest: bytes)
    ensures Lies(a + rest, 0, a)
  {}

  lemma {:induction false} LiesAfter(a: bytes, rest: bytes, at: nat, part: bytes)
    requires Lies(rest, at, part)
    ensures Lies(a + rest, |a| + at, part)
  {
    SliceRight(a, rest, at, at + |part|);
  }

  /** Six pieces end to end, each at the sum of those before it. */
  lemma {:induction false} SixLie(a: bytes, b: bytes, c: bytes, d: bytes, e: bytes, f: bytes)
    ensures var all := a + (b + (c + (d + (e + f))));
      && Lies(all, 0, a) && Lies(all, |a|, b) && Lies(all, |a| + |b|, c) && Lies(all, |a| + |b| + |c|, d)
      && Lies(all, |a| + |b| + |c| + |d|, e) && Lies(all, |a| + |b| + |c| + |d| + |e|, f)
  {
    var u, v, w, x := e + f, d + (e + f), c + (d + (e + f)), b + (c + (d + (e + f)));
    LiesFirst(a, x);
    LiesFirst(b, w);
    LiesFirst(c, v);
    LiesFirst(d, u);
    LiesFirst(e, f);
    assert Lies(f, 0, f);
    LiesAfter(a, x, 0, b);
    LiesAfter(b, w, 0, c);
    LiesAfter(a, x, |b|, c);
    ThreeDeep(a, b, c, d, u);
    LiesAfter(e, f, 0, f);
    TwoDeep(c, d, u, 0, e);
    TwoDeep(a, b, w, |c| + |d|, e);
    TwoDeep(c, d, u, |e|, f);
    TwoDeep(a, b, w, |c| + |d| + |e|, f);
  }

  lemma {:induction false} TwoDeep(a: bytes, b: bytes, rest: bytes, at: nat, part: bytes)
    requires Lies(rest, at, part)
    ensures Lies(a + (b + rest), |a| + |b| + at, part)
  {
    LiesAfter(b, rest, at, part);
    LiesAfter(a, b + rest, |b| + at, part);
  }

  lemma {:induction false} ThreeDeep(a: bytes, b: bytes, c: bytes, d: bytes, rest: bytes)
    ensures Lies(a + (b + (c + (d + rest))), |a| + |b| + |c|, d)
  {
    LiesFirst(d, rest);
    LiesAfter(c, d + rest, 0, d);
    TwoDeep(a, b, c + (d + rest), |c|, d);
  }

  // ---------------------------------------------------------------- laid out whole

  /** A gap between regions, filled with zeros; none where there is no gap. */
  function Gap(from: nat, upto: nat): bytes { Zeros(if upto > from then upto - from else 0) }

  /** The pieces past the header at their places: the hash, the directory, the fence, the records, each gap zeros. */
  function Arranged(t: bytes, w: bytes, fence: bytes, a: bytes, p: Places): bytes {
    t + (w + Gap(p.dir.lo + |w|, p.dir.hi) + (fence + (Gap(p.fence.hi, p.recs.lo) + (a + Gap(p.recs.lo + |a|, p.recs.hi)))))
  }

  /** The bytes past the header, the slack read as the zeros a hole reads as. */
  function EncodedRest(rs: seq<Rec>, table: seq<nat>, stride: nat, p: Places): bytes
    requires stride > 0
  {
    Arranged(Words(table, SLOT), Words(Offsets(rs, true), 4), FenceBytes(Sampled(KeysOf(rs), stride)), AllRecords(rs, true), p)
  }

  function BlobLen(rs: seq<Rec>, stride: nat): nat
    requires stride > 0
  {
    |Concat(Sampled(KeysOf(rs), stride))|
  }

  /** The layout of a list. */
  function LayoutOf(rs: seq<Rec>, stride: nat, insertSlack: nat, recordSlack: bool, cap: nat): (l: Option<Layout>)
    requires stride > 0
  {
    SectionLayout(|rs|, |AllRecords(rs, true)|, DivCeil(|rs|, stride), BlobLen(rs, stride), insertSlack, recordSlack, cap)
  }

  /** `encode_inline`'s section. */
  function Encoded(rs: seq<Rec>, table: seq<nat>, stride: nat, gen: nat, l: Layout): bytes
    requires stride > 0
  {
    var p := EncodedPlaces(l, BlobLen(rs, stride));
    HeaderBytes(SectionWords(gen, p, |rs|, l.cap, |AllRecords(rs, true)|, stride, l.dirCap)) + EncodedRest(rs, table, stride, p)
  }

  lemma {:induction false} FenceLen(rs: seq<Rec>, stride: nat)
    requires stride > 0
    ensures var ks := Sampled(KeysOf(rs), stride); |FenceBytes(ks)| == FenceOffsLen(|ks|) + |Concat(ks)|
  {
    var ks := Sampled(KeysOf(rs), stride);
    if ks == [] { assert Concat(ks) == []; }
  }

  lemma {:induction false} PiecesLie(h: bytes, t: bytes, w: bytes, spare: bytes, fence: bytes, pad: bytes, a: bytes, hole: bytes)
    ensures var sec := h + (t + (w + spare + (fence + (pad + (a + hole)))));
      var dir := |h| + |t|;
      var fenceAt := dir + |w| + |spare|;
      var recs := fenceAt + |fence| + |pad|;
      && |sec| == recs + |a| + |hole|
      && Lies(sec, |h|, t) && Lies(sec, dir, w) && Lies(sec, fenceAt, fence) && Lies(sec, recs, a)
  {
    SixLie(h, t, w + spare, fence, pad, a + hole);
    var sec := h + (t + (w + spare + (fence + (pad + (a + hole)))));
    Narrow(sec, |h| + |t|, w, spare);
    Narrow(sec, |h| + |t| + |w| + |spare| + |fence| + |pad|, a, hole);
  }

  /** Pieces arranged at places that follow one another lie there. */
  lemma {:induction false} ArrangedLies(h: bytes, t: bytes, w: bytes, fence: bytes, a: bytes, p: Places)
    requires |h| == p.hash.lo && p.hash.hi == p.hash.lo + |t| && p.dir.lo == p.hash.hi && p.dir.hi >= p.dir.lo + |w|
    requires p.fence == Span(p.dir.hi, p.dir.hi + |fence|) && p.recs.lo >= p.fence.hi && p.recs.hi >= p.recs.lo + |a|
    ensures var sec := h + Arranged(t, w, fence, a, p);
      && |sec| == p.recs.hi
      && Lies(sec, p.hash.lo, t) && Lies(sec, p.dir.lo, w) && Lies(sec, p.fence.lo, fence) && Lies(sec, p.recs.lo, a)
  {
    PiecesLie(h, t, w, Gap(p.dir.lo + |w|, p.dir.hi), fence, Gap(p.fence.hi, p.recs.lo), a, Gap(p.recs.lo + |a|, p.recs.hi));
  }

  /** The regions' lengths. */
  lemma {:induction false} PieceLengths(rs: seq<Rec>, compact: bool, table: seq<nat>, stride: nat)
    requires stride > 0
    ensures |Words(table, SLOT)| == SLOT * |table| && |Words(Offsets(rs, compact), 4)| == 4 * |rs|
    ensures var ks := Sampled(KeysOf(rs), stride); |FenceBytes(ks)| == FenceOffsLen(|ks|) + |Concat(ks)|
  {
    WordPlaceIs(4, |rs|);
    WordPlaceIs(SLOT, |table|);
    FenceLen(rs, stride);
  }

  /** Regions that lie at their places, by their lengths. */
  lemma {:induction false} IsLaid(sec: bytes, p: Places, rs: seq<Rec>, compact: bool, table: seq<nat>, stride: nat, dirCap: nat)
    requires stride > 0 && PlacesFit(p, |sec|) && |sec| < U64
    requires Lies(sec, p.hash.lo, Words(table, SLOT)) && p.hash.hi == p.hash.lo + SLOT * |table|
    requires Lies(sec, p.recs.lo, AllRecords(rs, compact)) && p.recs.hi >= p.recs.lo + |AllRecords(rs, compact)|
    requires Lies(sec, p.dir.lo, Words(Offsets(rs, compact), 4))
    requires p.dir.hi == p.dir.lo + (if dirCap == 0 then 4 * |rs| else 8 * dirCap) && (dirCap > 0 ==> dirCap >= |rs|)
    requires var fb := FenceBytes(Sampled(KeysOf(rs), stride)); Lies(sec, p.fence.lo, fb) && p.fence.hi == p.fence.lo + |fb|
    ensures Laid(sec, p, rs, compact, table, stride, dirCap)
  {}

  /** What a layout makes of its sizes. */
  lemma {:induction false} LayoutPlaces(n: nat, recBytes: nat, fenceN: nat, blobLen: nat, insertSlack: nat, recordSlack: bool,
    cap: nat, l: Layout)
    requires SectionLayout(n, recBytes, fenceN, blobLen, insertSlack, recordSlack, cap) == Some(l)
    ensures var p := EncodedPlaces(l, blobLen);
      && PlacesFit(p, l.total) && p.hash == Span(HEADER, HEADER + SLOT * cap) && p.dir.lo == p.hash.hi
      && p.dir.hi == p.dir.lo + (if l.dirCap == 0 then 4 * n else 8 * l.dirCap)
      && l.dirCap == (if insertSlack == 0 then 0 else n + insertSlack)
      && p.fence == Span(p.dir.hi, p.dir.hi + FenceOffsLen(fenceN) + blobLen)
      && p.recs == Span(AlignUp(p.fence.hi), AlignUp(p.fence.hi) + l.recsCap) && l.total == p.recs.hi && l.recsCap >= recBytes
  {}

  /** Its regions lie where its layout says. */
  lemma {:induction false} EncodedIsLaid(rs: seq<Rec>, table: seq<nat>, stride: nat, insertSlack: nat, recordSlack: bool, h: bytes,
    l: Layout, p: Places)
    requires stride > 0 && LayoutOf(rs, stride, insertSlack, recordSlack, |table|) == Some(l) && |h| == HEADER
    requires l.total < U64 && p == EncodedPlaces(l, BlobLen(rs, stride))
    ensures var sec := h + EncodedRest(rs, table, stride, p);
      Laid(sec, p, rs, true, table, stride, l.dirCap) && |sec| == l.total
  {
    PieceLengths(rs, true, table, stride);
    var t, w, fb, a := Words(table, SLOT), Words(Offsets(rs, true), 4), FenceBytes(Sampled(KeysOf(rs), stride)), AllRecords(rs, true);
    LayoutPlaces(|rs|, |a|, DivCeil(|rs|, stride), BlobLen(rs, stride), insertSlack, recordSlack, |table|, l);
    ArrangedLies(h, t, w, fb, a, p);
    IsLaid(h + Arranged(t, w, fb, a, p), p, rs, true, table, stride, l.dirCap);
  }

  /**
   `encode_inline`: a section of a sorted list is accepted and holds the list, whatever order its table
   was filled in; with a second directory reserved, exactly where the publish word can name the first.
   */
  lemma {:induction false} EncodeServes(rs: seq<Rec>, table: seq<nat>, stride: nat, gen: nat, insertSlack: nat, recordSlack: bool,
    l: Layout)
    requires Storage(rs, true, table, stride) && gen < U64 && stride < U64
    requires LayoutOf(rs, stride, insertSlack, recordSlack, |table|) == Some(l) && l.total < U64
    ensures var sec := Encoded(rs, table, stride, gen, l);
      && (Parse(sec).Some? <==> insertSlack == 0 || HEADER + SLOT * |table| < U32)
      && (Parse(sec).Some? ==> Serves(sec, rs, true, table))
  {
    var p := EncodedPlaces(l, BlobLen(rs, stride));
    var ws := SectionWords(gen, p, |rs|, |table|, |AllRecords(rs, true)|, stride, l.dirCap);
    EncodedIsLaid(rs, table, stride, insertSlack, recordSlack, HeaderBytes(ws), l, p);
    LaidServes(EncodedRest(rs, table, stride, p), gen, p, rs, true, table, stride, l.dirCap);
  }

  // ---------------------------------------------------------------- records streamed first

  function AlignTo8(n: nat): (m: nat)
    ensures n <= m < n + 8
  {
    (n + 7) / 8 * 8
  }

  /** Where a streamed section's regions land. */
  function StreamedPlaces(n: nat, recsLen: nat, fenceLen: nat, cap: nat): (p: Places)
    ensures PlacesFit(p, p.hash.hi)
  {
    var fence := AlignUp(HEADER + recsLen);
    var dir := AlignUp(fence + fenceLen);
    var hash := AlignTo8(dir + 4 * n);
    Places(Span(hash, hash + SLOT * cap), Span(dir, dir + 4 * n), Span(HEADER, HEADER + recsLen), Span(fence, fence + fenceLen))
  }

  /** The fence, the directory and the hash after the streamed records, each gap zeros. */
  function StreamArranged(t: bytes, w: bytes, fence: bytes, p: Places): bytes {
    Gap(p.recs.hi, p.fence.lo) + (fence + (Gap(p.fence.hi, p.dir.lo) + (w + (Gap(p.dir.hi, p.hash.lo) + t))))
  }

  function PlacesOf(rs: seq<Rec>, compact: bool, table: seq<nat>, stride: nat): Places
    requires stride > 0
  {
    StreamedPlaces(|rs|, |AllRecords(rs, compact)|, FenceOffsLen(DivCeil(|rs|, stride)) + BlobLen(rs, stride), |table|)
  }

  /** What follows the streamed records. */
  function Trailer(rs: seq<Rec>, compact: bool, table: seq<nat>, stride: nat): bytes
    requires stride > 0
  {
    StreamArranged(Words(table, SLOT), Words(Offsets(rs, compact), 4), FenceBytes(Sampled(KeysOf(rs), stride)),
      PlacesOf(rs, compact, table, stride))
  }

  /** The header `stream_trailer` writes. */
  function StreamedHeader(rs: seq<Rec>, compact: bool, table: seq<nat>, stride: nat, gen: nat): (h: bytes)
    requires stride > 0
    ensures |h| == HEADER
  {
    HeaderBytes(SectionWords(gen, PlacesOf(rs, compact, table, stride), |rs|, |table|, |AllRecords(rs, compact)|, stride, 0))
  }

  lemma {:induction false} StreamLies(h: bytes, a: bytes, z0: bytes, fence: bytes, z1: bytes, w: bytes, z2: bytes, t: bytes)
    ensures var sec := h + (a + (z0 + (fence + (z1 + (w + (z2 + t))))));
      var fenceAt := |h| + |a| + |z0|;
      var dir := fenceAt + |fence| + |z1|;
      var hash := dir + |w| + |z2|;
      && |sec| == hash + |t|
      && Lies(sec, |h|, a) && Lies(sec, fenceAt, fence) && Lies(sec, dir, w) && Lies(sec, hash, t)
  {
    var back := w + (z2 + t);
    SixLie(h, a, z0, fence, z1, back);
    var sec := h + (a + (z0 + (fence + (z1 + back))));
    var dir := |h| + |a| + |z0| + |fence| + |z1|;
    Narrow(sec, dir, w, z2 + t);
    Narrow(sec, dir + |w|, z2, t);
  }

  lemma {:induction false} StreamArrangedLies(h: bytes, t: bytes, w: bytes, fence: bytes, a: bytes, p: Places)
    requires |h| == p.recs.lo && p.recs.hi == p.recs.lo + |a| && p.fence.lo >= p.recs.hi && p.fence.hi == p.fence.lo + |fence|
    requires p.dir.lo >= p.fence.hi && p.dir.hi == p.dir.lo + |w| && p.hash.lo >= p.dir.hi && p.hash.hi == p.hash.lo + |t|
    ensures var sec := h + (a + StreamArranged(t, w, fence, p));
      && |sec| == p.hash.hi
      && Lies(sec, p.hash.lo, t) && Lies(sec, p.dir.lo, w) && Lies(sec, p.fence.lo, fence) && Lies(sec, p.recs.lo, a)
  {
    StreamLies(h, a, Gap(p.recs.hi, p.fence.lo), fence, Gap(p.fence.hi, p.dir.lo), w, Gap(p.dir.hi, p.hash.lo), t);
  }

  /** The streamed layout's regions lie where its header says. */
  lemma {:induction false} StreamedIsLaid(rs: seq<Rec>, compact: bool, table: seq<nat>, stride: nat, h: bytes, p: Places)
    requires stride > 0 && |h| == HEADER && p == PlacesOf(rs, compact, table, stride) && p.hash.hi < U64
    ensures var sec := h + (AllRecords(rs, compact) + Trailer(rs, compact, table, stride));
      Laid(sec, p, rs, compact, table, stride, 0) && |sec| == p.hash.hi
  {
    PieceLengths(rs, compact, table, stride);
    var t, w, fb, a := Words(table, SLOT), Words(Offsets(rs, compact), 4), FenceBytes(Sampled(KeysOf(rs), stride)),
      AllRecords(rs, compact);
    StreamArrangedLies(h, t, w, fb, a, p);
    IsLaid(h + (a + StreamArranged(t, w, fb, p)), p, rs, compact, table, stride, 0);
  }

  /** `stream_trailer` after streamed records: the section is accepted and holds the list. */
  lemma {:induction false} StreamServes(rs: seq<Rec>, compact: bool, table: seq<nat>, stride: nat, gen: nat)
    requires Storage(rs, compact, table, stride) && gen < U64 && stride < U64
    requires PlacesOf(rs, compact, table, stride).hash.hi < U64
    ensures Serves(StreamedHeader(rs, compact, table, stride, gen)
      + (AllRecords(rs, compact) + Trailer(rs, compact, table, stride)), rs, compact, table)
  {
    var h := StreamedHeader(rs, compact, table, stride, gen);
    var p := PlacesOf(rs, compact, table, stride);
    StreamedIsLaid(rs, compact, table, stride, h, p);
    LaidServes(AllRecords(rs, compact) + Trailer(rs, compact, table, stride), gen, p, rs, compact, table, stride, 0);
  }
}
