/**
 Index records: a key, its extents and the tail of its inline runs, four-aligned.

 The compact form stands for one inline run by four bytes; a reader rebuilds from them and the run
 itself the extent that was never stored.
 */
module Records {
  import opened Bytes
  import opened Varint
  import opened Runs
  import opened Wrappers

  const EXT_BYTES: nat := 20
  const COMPACT: nat := 0x8000
  const COMPACT_RUN: nat := 0x4000
  const C_FIXED: nat := 0x4000
  const C_TOMB: nat := 0x8000

  // ---------------------------------------------------------------- lengths

  /** The least multiple of four not below `n`. */
  function AlignUp(n: nat): (m: nat)
    ensures n <= m < n + 4 && m % 4 == 0
  {
    (n + 3) / 4 * 4
  }

  /** The rule every writer and the planner share: one inline run from the tail's start, and short. */
  predicate Compacts(exts: seq<Ext>) {
    |exts| == 1 && exts[0].IsInline() && exts[0].off == 0 && exts[0].len < COMPACT_RUN
  }

  function RecordLenCompact(klen: nat, run: nat): nat { AlignUp(4 + klen) + 4 + AlignUp(run) }

  function RecordLenTail(klen: nat, next: nat, tail: nat): nat {
    AlignUp(4 + klen) + EXT_BYTES * next + AlignUp(tail)
  }

  /** What a record takes, or `None` where no record can hold it. */
  function RecordLenFor(klen: nat, exts: seq<Ext>, tail: nat, compact: bool): Option<nat> {
    if klen >= U16 || |exts| >= COMPACT then None
    else if compact && Compacts(exts) then Some(RecordLenCompact(klen, tail))
    else Some(RecordLenTail(klen, |exts|, tail))
  }

  /** What a segment writer's record takes for one run: what the planner sizes a section by. */
  function SegmentRecordLen(klen: nat, run: nat, inlined: bool, compact: bool): nat {
    if compact && inlined && run < COMPACT_RUN then RecordLenCompact(klen, run)
    else RecordLenTail(klen, 1, if inlined then run else 0)
  }

  // ---------------------------------------------------------------- layout

  function Pad(n: nat): (z: bytes)
    ensures |z| == AlignUp(n) - n
  {
    seq(AlignUp(n) - n, i => 0)
  }

  function B2N(b: bool): nat { if b then 1 else 0 }

  /** The four bytes that stand for a compact run's extent: its length, its count under two flags. */
  function CompactHeader(e: Ext): (h: bytes)
    ensures |h| == 4
  {
    LeBytes(e.len, 2) + LeBytes(e.Records() + C_FIXED * B2N(e.IsFixed()) + C_TOMB * B2N(e.IsTombstone()), 2)
  }

  function ExtBytes(e: Ext): (b: bytes)
    ensures |b| == EXT_BYTES
  {
    Words([e.block, e.off, e.len, e.last, e.count], 4)
  }

  function AllExtBytes(exts: seq<Ext>): (b: bytes)
    ensures |b| == EXT_BYTES * |exts|
  {
    if exts == [] then [] else ExtBytes(exts[0]) + AllExtBytes(exts[1..])
  }

  /** A record's first four bytes and its key, padded. */
  function Head(key: bytes, n: nat): (h: bytes)
    ensures |h| == AlignUp(4 + |key|)
  {
    LeBytes(|key|, 2) + LeBytes(n, 2) + key + Pad(4 + |key|)
  }

  /** The count word. */
  function CountWord(exts: seq<Ext>, compact: bool): nat {
    if compact && Compacts(exts) then COMPACT else |exts|
  }

  /** The extents, or the four bytes that stand for the one there is. */
  function Body(exts: seq<Ext>, compact: bool): bytes {
    if compact && Compacts(exts) then CompactHeader(exts[0]) else AllExtBytes(exts)
  }

  /** A record's bytes. */
  function RecordOf(key: bytes, exts: seq<Ext>, tail: bytes, compact: bool): bytes {
    Head(key, CountWord(exts, compact)) + (Body(exts, compact) + (tail + Pad(|tail|)))
  }

  /** A record is as long as the length it was given. */
  lemma {:induction false} RecordLength(key: bytes, exts: seq<Ext>, tail: bytes, compact: bool)
    requires |key| < U16 && |exts| < COMPACT
    ensures RecordLenFor(|key|, exts, |tail|, compact) == Some(|RecordOf(key, exts, tail, compact)|)
    ensures |RecordOf(key, exts, tail, compact)| % 4 == 0
  {}

  // ---------------------------------------------------------------- parsing

  /** Where the last of `n` prefixed records starts, walked to from `p`. */
  function WalkTo(run: bytes, p: nat, n: nat): Option<nat>
    requires p <= |run|
    decreases n, run
  {
    if n == 0 then Some(p)
    else
      var r := GetUvarint(run, p);
      if r.0 + r.1 >= |run| then None else WalkTo(run, r.0 + r.1, n - 1)
  }

  function LastOfFixed(records: nat, width: nat): nat
    requires records > 0
  {
    (records - 1) * width
  }

  /** Where a run's last record begins, worked out from the run alone. */
  function RunLast(records: nat, fixed: bool, run: bytes): Option<nat> {
    if records <= 1 then Some(0)
    else if fixed then
      var width := Each(|run|, records);
      if width.None? then None else Some(LastOfFixed(records, width.value))
    else WalkTo(run, 0, records - 1)
  }

  /** The extent a compact record's header stands for; `None` for a header its run contradicts. */
  function CompactExt(h: bytes, run: bytes): Option<Ext>
    requires |h| == 4
  {
    var len, c := LeNat(h[..2]), LeNat(h[2..]);
    var records, fixed, tomb := c % C_FIXED, (c / C_FIXED) % 2 == 1, (c / C_TOMB) % 2 == 1;
    if |run| != len || records > (if len > 1 then len else 1) then None
    else
      var last := RunLast(records, fixed, run);
      if last.None? then None
      else Some(Ext(INLINE, 0, len, last.value, CountOf(records, fixed, tomb)))
  }

  function WordAt(b: bytes, at: nat): nat
    requires at + 4 <= |b|
  {
    LeNat(b[at..at + 4])
  }

  function ReadExt(b: bytes): Ext
    requires |b| >= EXT_BYTES
  {
    Ext(WordAt(b, 0), WordAt(b, 4), WordAt(b, 8), WordAt(b, 12), WordAt(b, 16))
  }

  function ReadExts(b: bytes, n: nat): (exts: seq<Ext>)
    requires |b| >= EXT_BYTES * n
    ensures |exts| == n
    decreases n, b
  {
    if n == 0 then [] else [ReadExt(b)] + ReadExts(b[EXT_BYTES..], n - 1)
  }

  /** The tail is as long as the furthest inline run reaches. */
  function TailLen(exts: seq<Ext>): nat {
    if exts == [] then 0
    else
      var rest, e := TailLen(exts[1..]), exts[0];
      if e.IsInline() && e.off + e.len > rest then e.off + e.len else rest
  }

  datatype Parsed = Parsed(key: bytes, exts: seq<Ext>, tail: bytes, len: nat)

  /** A compact record past its key: the extent rebuilt, its run, and the bytes both take. */
  function CompactTail(rest: bytes): Option<(seq<Ext>, bytes, nat)> {
    if |rest| < 4 then None
    else
      var len := LeNat(rest[..2]);
      if |rest| < 4 + len then None
      else
        var tail := rest[4..4 + len];
        var e := CompactExt(rest[..4], tail);
        if e.None? then None else Some(([e.value], tail, 4 + len))
  }

  /** The tail the extents reach, from `at`. */
  function TailFrom(exts: seq<Ext>, at: nat, rest: bytes): Option<(seq<Ext>, bytes, nat)> {
    var t := TailLen(exts);
    if |rest| < at + t then None else Some((exts, rest[at..at + t], at + t))
  }

  /** The extents, the tail and the bytes both take, past the key, for a count word `n`. */
  function ParseTail(n: nat, rest: bytes): Option<(seq<Ext>, bytes, nat)> {
    if n == COMPACT then CompactTail(rest)
    else if n > COMPACT || |rest| < EXT_BYTES * n then None
    else TailFrom(ReadExts(rest, n), EXT_BYTES * n, rest)
  }

  /** The record `s` begins with. */
  function ParseHead(s: bytes): Option<Parsed> {
    if |s| < 4 then None
    else
      var klen, n := LeNat(s[..2]), LeNat(s[2..4]);
      if |s| < 4 + klen || |s| < AlignUp(4 + klen) then None
      else
        var t := ParseTail(n, s[AlignUp(4 + klen)..]);
        if t.None? then None
        else Some(Parsed(s[4..4 + klen], t.value.0, t.value.1, AlignUp(AlignUp(4 + klen) + t.value.2)))
  }

  /** The record at `off`. */
  function ParseRecord(buf: bytes, off: nat): Option<Parsed> {
    if off > |buf| then None else ParseHead(buf[off..])
  }

  /** A record's key alone. */
  function RecordKey(buf: bytes, off: nat): Option<bytes> {
    if off + 4 > |buf| then None
    else
      var klen, n := LeNat(buf[off..off + 2]), LeNat(buf[off + 2..off + 4]);
      if (n >= COMPACT && n != COMPACT) || |buf| < off + 4 + klen then None
      else Some(buf[off + 4..off + 4 + klen])
  }

  /** A compact record's key and end, from the first word past its key. */
  function CompactNext(buf: bytes, off: nat, klen: nat): Option<(bytes, nat)> {
    var at := off + AlignUp(4 + klen);
    if |buf| < off + 4 + klen || |buf| < at + 2 then None
    else
      var next := off + RecordLenCompact(klen, LeNat(buf[at..at + 2]));
      if next <= |buf| then Some((buf[off + 4..off + 4 + klen], next)) else None
  }

  function ParsedNext(buf: bytes, off: nat): Option<(bytes, nat)> {
    var p := ParseRecord(buf, off);
    if p.None? || off + p.value.len > |buf| then None else Some((p.value.key, off + p.value.len))
  }

  /** The key of the record at `off`, and where the record after it begins. */
  function RecordKeyNext(buf: bytes, off: nat): Option<(bytes, nat)> {
    if off + 4 > |buf| then None
    else if LeNat(buf[off + 2..off + 4]) == COMPACT then CompactNext(buf, off, LeNat(buf[off..off + 2]))
    else ParsedNext(buf, off)
  }
}
