/**
 A flat index's section: the header that names its regions, and the reads that address them.

 Nothing is copied out of a section; a view of it is where its regions are.
 */
module FlatParse {
  import opened Bytes
  import opened Wrappers
  import opened Records
  import opened HashTable

  const HEADER: nat := 192
  const SLOT: nat := 8
  const MAGIC: nat := 0x5849_4653
  const VERSION: nat := 3
  const HEADER_WORDS: nat := 23

  datatype Span = Span(lo: nat, hi: nat)

  function Get(b: bytes, s: Span): Option<bytes> {
    if s.lo <= s.hi <= |b| then Some(b[s.lo..s.hi]) else None
  }

  function ReadWord(b: bytes, at: nat, n: nat): Option<nat> {
    if at + n <= |b| then Some(LeNat(b[at..at + n])) else None
  }

  /** The first `k` words of a region. */
  function WordsIn(b: bytes, n: nat, k: nat): (vs: seq<nat>)
    requires |b| >= WordPlace(n, k)
    ensures |vs| == k
  {
    if k == 0 then []
    else
      WordsIn(b, n, k - 1) + [LeNat(b[WordPlace(n, k - 1)..WordPlace(n, k - 1) + n])]
  }

  ghost predicate AllBelow(vs: seq<nat>, m: nat) { forall i :: 0 <= i < |vs| ==> vs[i] < m }

  /** Words written are words read. */
  lemma {:induction false} WordsBack(vs: seq<nat>, n: nat, k: nat, rest: bytes)
    requires k <= |vs| && AllBelow(vs, Pow256(n))
    ensures WordPlace(n, k) <= |Words(vs, n)| && WordsIn(Words(vs, n) + rest, n, k) == vs[..k]
    decreases k
  {
    if k > 0 {
      WordsBack(vs, n, k - 1, rest);
      WordRead(vs, n, k - 1, rest);
      assert vs[..k] == vs[..k - 1] + [vs[k - 1]];
    }
  }

  // ---------------------------------------------------------------- the view

  datatype Fence = Fence(offs: Span, blob: Span, n: nat, stride: nat)

  const NO_FENCE: Fence := Fence(Span(0, 0), Span(0, 0), 0, 0)

  /** Where a section's regions are. */
  datatype Flat = Flat(hash: Span, dir: Span, recs: Span, cap: nat, nkeys: nat, fence: Fence,
                       dirBase: nat, dirCap: nat, bump: nat, crcOff: nat, shift: nat)

  /** The live directory and its keys: the header's own, or the one a publish word names. */
  function Live(base: nat, cap: nat, state: nat, n: nat): Option<(nat, nat)> {
    if cap == 0 then Some((base, n))
    else if base + 4 * cap >= U64 then None
    else
      var off, live := state / U32, state % U32;
      if (off != base && off != base + 4 * cap) || live > cap then None else Some((off, live))
  }

  /** Where the directory region ends, both buffers of it; the last sum is not checked and wraps. */
  function DirEnd(base: nat, cap: nat, off: nat, n: nat): Option<nat> {
    if cap == 0 then Some(off + 4 * n)
    else if 8 * cap >= U64 then None
    else Some((base + 8 * cap) % U64)
  }

  predicate Inside(s: Span, len: nat) { HEADER <= s.lo <= s.hi <= len }

  /** Two spans share a byte. */
  predicate Overlap(a: Span, b: Span) {
    a.lo < b.hi && b.lo < a.hi && a.lo != a.hi && b.lo != b.hi
  }

  predicate Disjoint(a: Span, b: Span, c: Span) { !Overlap(a, b) && !Overlap(a, c) && !Overlap(b, c) }

  /** A fence that checks out against the section and its other regions; otherwise none. */
  function ParseFence(sec: bytes, off: nat, n: nat, stride: nat, nkeys: nat, a: Span, b: Span, c: Span): Fence {
    if n == 0 || stride == 0 || n > nkeys || n != DivCeil(nkeys, stride) then NO_FENCE
    else
      var end := off + 4 * (n + 1);
      if off < HEADER || end > |sec| then NO_FENCE
      else
        var f := Span(off, end + LeNat(sec[end - 4..end]));
        if f.hi > |sec| || Overlap(f, a) || Overlap(f, b) || Overlap(f, c) then NO_FENCE
        else Fence(Span(off, end), Span(end, f.hi), n, stride)
  }

  function Clamp(x: nat, lo: nat, hi: nat): nat
    requires lo <= hi
  {
    Max(lo, Min(x, hi))
  }

  /** The row's place and piece shift, both zero for none; `None` for a row no writer names. */
  function ChecksumWords(off: nat, shift: nat, len: nat): Option<(nat, nat)> {
    if off == 0 then Some((0, 0))
    else if shift < 10 || shift > 24 || off < HEADER || off > len then None
    else Some((off, shift))
  }

  /** The view the header's words name. */
  function ParseWords(sec: bytes, w: seq<nat>): Option<Flat>
    requires |w| == HEADER_WORDS
  {
    var live, sums := Live(w[9], w[17], w[18], w[6]), ChecksumWords(w[19], w[20], |sec|);
    if !PowerOfTwo(w[7]) || live.None? || sums.None? then None
    else
      var n, dirEnd := live.value.1, DirEnd(w[9], w[17], live.value.0, live.value.1);
      var recsCap := Max(w[12], w[11]);
      if dirEnd.None? || n > w[7] then None
      else
        var hash, dir, recs :=
          Span(w[8], w[8] + SLOT * w[7]), Span(live.value.0, dirEnd.value), Span(w[10], w[10] + recsCap);
        if !Inside(hash, |sec|) || !Inside(dir, |sec|) || !Inside(recs, |sec|) || !Disjoint(hash, dir, recs) then None
        else
          var fence := ParseFence(sec, w[14], w[15], w[16], n, hash, dir, recs);
          Some(Flat(hash, dir, recs, w[7], n, fence, w[9], w[17], Clamp(w[13], w[11], recsCap),
                    sums.value.0, sums.value.1))
  }

  lemma {:induction false} HeaderRoom()
    ensures WordPlace(8, HEADER_WORDS) == HEADER - 8
  {
    WordPlaceIs(8, HEADER_WORDS);
  }

  /** `FlatIndex::parse`: a view, or that the section is refused. */
  function Parse(sec: bytes): Option<Flat> {
    if |sec| < HEADER || LeNat(sec[..4]) != MAGIC || LeNat(sec[4..8]) != VERSION then None
    else
      HeaderRoom();
      ParseWords(sec, WordsIn(sec[8..HEADER], 8, HEADER_WORDS))
  }

  /** What every accepted view is sure of: its regions lie in the section, past the header, apart. */
  lemma {:induction false} ParsedIsSound(sec: bytes)
    requires Parse(sec).Some?
    ensures var f := Parse(sec).value;
      && Inside(f.hash, |sec|) && Inside(f.dir, |sec|) && Inside(f.recs, |sec|)
      && Disjoint(f.hash, f.dir, f.recs)
      && PowerOfTwo(f.cap) && f.hash.hi == f.hash.lo + SLOT * f.cap && f.nkeys <= f.cap
      && (f.fence.n > 0 ==>
            f.fence.n == DivCeil(f.nkeys, f.fence.stride) && f.fence.stride > 0
            && HEADER <= f.fence.offs.lo <= f.fence.offs.hi == f.fence.blob.lo <= f.fence.blob.hi <= |sec|)
  {}

  // ---------------------------------------------------------------- reads

  /** The offset the directory gives a rank. */
  function RecordOff(f: Flat, sec: bytes, rank: nat): Option<nat> {
    var dir := Get(sec, f.dir);
    if rank >= f.nkeys || dir.None? then None else ReadWord(dir.value, 4 * rank, 4)
  }

  /** `key_at`: the key of the record at a rank. */
  function KeyAt(f: Flat, sec: bytes, rank: nat): Option<bytes> {
    var recs, off := Get(sec, f.recs), RecordOff(f, sec, rank);
    if recs.None? || off.None? then None else RecordKey(recs.value, off.value)
  }

  /** `record_full`: the record at an offset of the record region. */
  function RecordFull(f: Flat, sec: bytes, off: nat): Option<Parsed> {
    var recs := Get(sec, f.recs);
    if recs.None? then None else ParseRecord(recs.value, off)
  }

  /** `at_full`: the record at a rank. */
  function AtFull(f: Flat, sec: bytes, rank: nat): Option<Parsed> {
    var off := RecordOff(f, sec, rank);
    if off.None? then None else RecordFull(f, sec, off.value)
  }

  /** The fence's copy of an entry's key. */
  function FenceKey(f: Flat, sec: bytes, i: nat): Option<bytes> {
    var offs, blob := Get(sec, f.fence.offs), Get(sec, f.fence.blob);
    if i >= f.fence.n || offs.None? then None
    else
      var a, b := ReadWord(offs.value, 4 * i, 4), ReadWord(offs.value, 4 * (i + 1), 4);
      if a.None? || b.None? || a.value > b.value || blob.None? then None
      else Get(blob.value, Span(a.value, b.value))
  }

  /** The hash region's slots. */
  function Slots(f: Flat, sec: bytes): (t: seq<nat>)
    requires f.hash.lo <= f.hash.hi <= |sec| && f.hash.hi == f.hash.lo + SLOT * f.cap
    ensures |t| == f.cap
  {
    WordPlaceIs(SLOT, f.cap);
    WordsIn(sec[f.hash.lo..f.hash.hi], SLOT, f.cap)
  }
}
