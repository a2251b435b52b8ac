/**
 The ordered scan: a loop of its own for the common record, a general loop for every other, and a
 block kept across keys, all of which hand out what the plain walk does.
 */
module BlobScan {
  import opened Bytes
  import opened Wrappers
  import opened Runs
  import opened Records
  import RecordWalk
  import FlatParse
  import opened BlobVerify
  import BlobRead
  import Chunked

  // ---------------------------------------------------------------- the plain walk

  /** A key and one of its values, as a scan hands them out. */
  datatype Entry = Entry(key: bytes, value: bytes)

  function Pairs(k: bytes, vs: seq<bytes>): (ps: seq<Entry>)
    ensures |ps| == |vs|
  {
    seq(|vs|, i requires 0 <= i < |vs| => Entry(k, vs[i]))
  }

  /** The bytes of an extent's run: of its record's tail, or of the block it names. */
  function RunBytes(tail: bytes, content: seq<bytes>, e: Ext): Option<bytes> {
    if e.IsInline() then FlatParse.Get(tail, FlatParse.Span(e.off, e.off + e.len))
    else if e.block >= |content| then None
    else FlatParse.Get(content[e.block], FlatParse.Span(e.off, e.off + e.len))
  }

  /** An extent whose run is there and decodes. */
  predicate SaneExt(tail: bytes, content: seq<bytes>, e: Ext) {
    var run := RunBytes(tail, content, e);
    run.Some? && ValuesOf(run.value, e).damage.None?
  }

  predicate Sane(p: Parsed, content: seq<bytes>) {
    forall i :: 0 <= i < |p.exts| ==> SaneExt(p.tail, content, p.exts[i])
  }

  function EmitExt(k: bytes, tail: bytes, content: seq<bytes>, e: Ext): seq<Entry> {
    var run := RunBytes(tail, content, e);
    if run.None? then [] else Pairs(k, ValuesOf(run.value, e).values)
  }

  /** What a record's first extents hand out. */
  function EmitExts(k: bytes, tail: bytes, content: seq<bytes>, exts: seq<Ext>): seq<Entry> {
    if exts == [] then []
    else EmitExts(k, tail, content, exts[..|exts| - 1]) + EmitExt(k, tail, content, exts[|exts| - 1])
  }

  function Emit(p: Parsed, content: seq<bytes>): seq<Entry> { EmitExts(p.key, p.tail, content, p.exts) }

  /** Where the directory says a rank's record is, and the record. */
  function OffAt(dir: bytes, nkeys: nat, rank: nat): Option<nat> {
    if rank >= nkeys then None else FlatParse.ReadWord(dir, 4 * rank, 4)
  }

  function At(recs: bytes, dir: bytes, nkeys: nat, rank: nat): Option<Parsed> {
    var off := OffAt(dir, nkeys, rank);
    if off.None? then None else ParseRecord(recs, off.value)
  }

  /** Entries end to end. */
  function Joined(all: seq<seq<Entry>>): seq<Entry> {
    if all == [] then [] else Joined(all[..|all| - 1]) + all[|all| - 1]
  }

  /** A rank's record parses, is four-aligned and decodes, and these are its entries. */
  ghost predicate Ranked(recs: bytes, dir: bytes, nkeys: nat, content: seq<bytes>, rank: nat, es: seq<Entry>) {
    && OffAt(dir, nkeys, rank).Some? && OffAt(dir, nkeys, rank).value % 4 == 0
    && At(recs, dir, nkeys, rank).Some? && Sane(At(recs, dir, nkeys, rank).value, content)
    && es == Emit(At(recs, dir, nkeys, rank).value, content)
  }

  /** A well-formed section: `all` is what the plain walk hands out, rank by rank, parsing each record whole. */
  ghost predicate WellFormed(recs: bytes, dir: bytes, nkeys: nat, content: seq<bytes>, all: seq<seq<Entry>>) {
    |all| == nkeys && forall r {:trigger Ranked(recs, dir, nkeys, content, r, all[r])} :: 0 <= r < nkeys ==>
      Ranked(recs, dir, nkeys, content, r, all[r])
  }

  /** The ranks a scan takes. */
  function Taken(nkeys: nat, from: nat, limit: nat): nat {
    if from >= nkeys then 0 else if limit < nkeys - from then limit else nkeys - from
  }

  // ---------------------------------------------------------------- the common record

  /** One record read in place: another shape, a record its run contradicts, or what it hands out. */
  datatype Fast = Other | Damaged | Emits(entries: seq<Entry>)

  /** The one run of a common record: where it lies, its length and its count of values. */
  datatype OneRun = OneRun(at: nat, len: nat, records: nat)

  /** A compact record's run, where its values share a width. */
  function CompactRun(recs: bytes, at: nat): Option<OneRun> {
    if at + 4 > |recs| then None
    else
      var len, c := LeNat(recs[at..at + 2]), LeNat(recs[at + 2..at + 4]);
      if (c / C_FIXED) % 2 == 0 then None else Some(OneRun(at + 4, len, c % C_FIXED))
  }

  /** The run of a record of one extent, where that is inline and its values share a width. */
  function FullRun(recs: bytes, at: nat): Option<OneRun> {
    if at + EXT_BYTES > |recs| then None
    else
      var e := ReadExt(recs[at..at + EXT_BYTES]);
      if !e.IsInline() || !e.IsFixed() then None else Some(OneRun(at + EXT_BYTES + e.off, e.len, e.Records()))
  }

  /** The common shape, compact or not; `None` for any other. */
  function CommonRun(recs: bytes, off: nat): Option<OneRun>
    requires off + 4 <= |recs|
  {
    var klen, n := LeNat(recs[off..off + 2]), LeNat(recs[off + 2..off + 4]);
    var at := AlignUp(off + 4 + klen);
    if n == COMPACT then CompactRun(recs, at) else if n == 1 then FullRun(recs, at) else None
  }

  /** A record's key, where it lies. */
  ghost predicate KeyHere(recs: bytes, off: nat, key: bytes) {
    off + 4 + |key| <= |recs| && key == recs[off + 4..off + 4 + |key|] && |key| == LeNat(recs[off..off + 2])
  }

  /** An extent and a tail that are one fixed inline run: where that run is, and its fields. */
  ghost predicate RunHere(recs: bytes, exts: seq<Ext>, tail: bytes, o: OneRun) {
    && |exts| == 1 && exts[0].IsInline() && exts[0].IsFixed()
    && o.len == exts[0].len && o.records == exts[0].Records()
    && o.at + o.len <= |recs| && exts[0].off + exts[0].len <= |tail|
    && recs[o.at..o.at + o.len] == tail[exts[0].off..exts[0].off + exts[0].len]
  }

  lemma {:induction false} AlignedAt(off: nat, n: nat)
    requires off % 4 == 0
    ensures AlignUp(off + n) == off + AlignUp(n)
  {}

  lemma {:induction false} HeadOfParsed(s: bytes)
    requires ParseHead(s).Some?
    ensures var klen, n := LeNat(s[..2]), LeNat(s[2..4]);
      var t := ParseTail(n, s[AlignUp(4 + klen)..]);
      && |s| >= AlignUp(4 + klen) && t.Some? && ParseHead(s).value.key == s[4..4 + klen]
      && ParseHead(s).value.exts == t.value.0 && ParseHead(s).value.tail == t.value.1
  {}

  lemma {:induction false} CompactParts(rest: bytes)
    requires CompactTail(rest).Some?
    ensures var (len, c) := (LeNat(rest[..2]), LeNat(rest[2..4]));
      var (exts, tail, used) := CompactTail(rest).value;
      && |exts| == 1 && exts[0].IsInline() && exts[0].off == 0 && exts[0].len == len == |tail|
      && |rest| >= 4 + len && tail == rest[4..4 + len]
      && exts[0].count == CountOf(c % C_FIXED, (c / C_FIXED) % 2 == 1, (c / C_TOMB) % 2 == 1)
  {
    assert rest[..4][2..] == rest[2..4] && rest[..4][..2] == rest[..2];
  }

  lemma {:induction false} SmallCount(c: nat, fixed: bool, tomb: bool, e: Ext)
    requires e.count == CountOf(c % C_FIXED, fixed, tomb)
    ensures e.Records() == c % C_FIXED && e.IsFixed() == fixed
  {
    CountReads(c % C_FIXED, fixed, tomb, e);
  }

  /** The fast reading of a compact record's run is the parser's. */
  lemma {:induction false} CompactCommon(recs: bytes, at: nat, rest: bytes)
    requires at <= |recs| && rest == recs[at..] && CompactTail(rest).Some?
    ensures CompactRun(recs, at).Some? ==>
      RunHere(recs, CompactTail(rest).value.0, CompactTail(rest).value.1, CompactRun(recs, at).value)
  {
    CompactParts(rest);
    RecordWalk.Sub(recs, at, 0, 2);
    RecordWalk.Sub(recs, at, 2, 4);
    var len, c := LeNat(rest[..2]), LeNat(rest[2..4]);
    var (exts, tail, used) := CompactTail(rest).value;
    SmallCount(c, (c / C_FIXED) % 2 == 1, (c / C_TOMB) % 2 == 1, exts[0]);
    RecordWalk.Sub(recs, at, 4, 4 + len);
    assert tail[0..len] == tail;
  }

  lemma {:induction false} OneTail(e: Ext)
    ensures TailLen([e]) == if e.IsInline() then e.off + e.len else 0
  {
    assert [e][1..] == [];
  }

  lemma {:induction false} OneExt(rest: bytes)
    requires |rest| >= EXT_BYTES
    ensures ReadExts(rest, 1) == [ReadExt(rest[..EXT_BYTES])]
  {
    assert ReadExts(rest, 1) == [ReadExt(rest)] + ReadExts(rest[EXT_BYTES..], 0);
    ExtAlone(rest);
  }

  lemma {:induction false} FullParts(rest: bytes)
    requires ParseTail(1, rest).Some?
    ensures |rest| >= EXT_BYTES
    ensures var e := ReadExt(rest[..EXT_BYTES]);
      && ParseTail(1, rest).value.0 == [e]
      && (e.IsInline() ==> |rest| >= EXT_BYTES + e.off + e.len)
      && (e.IsInline() ==> ParseTail(1, rest).value.1 == rest[EXT_BYTES..EXT_BYTES + e.off + e.len])
  {
    OneExt(rest);
    OneTail(ReadExt(rest[..EXT_BYTES]));
  }

  lemma {:induction false} ExtAlone(rest: bytes)
    requires |rest| >= EXT_BYTES
    ensures ReadExt(rest[..EXT_BYTES]) == ReadExt(rest)
  {
    var b := rest[..EXT_BYTES];
    assert b[0..4] == rest[0..4] && b[4..8] == rest[4..8] && b[8..12] == rest[8..12];
    assert b[12..16] == rest[12..16] && b[16..20] == rest[16..20];
  }

  /** The fast reading of the run of a record of one extent is the parser's. */
  lemma {:induction false} FullCommon(recs: bytes, at: nat, rest: bytes)
    requires at <= |recs| && rest == recs[at..] && ParseTail(1, rest).Some?
    ensures FullRun(recs, at).Some? ==>
      RunHere(recs, ParseTail(1, rest).value.0, ParseTail(1, rest).value.1, FullRun(recs, at).value)
  {
    FullParts(rest);
    RecordWalk.Sub(recs, at, 0, EXT_BYTES);
    var e := ReadExt(rest[..EXT_BYTES]);
    if e.IsInline() { TailPart(recs, at, rest, ParseTail(1, rest).value.1, e); }
  }

  lemma {:induction false} TailPart(recs: bytes, at: nat, rest: bytes, tail: bytes, e: Ext)
    requires at <= |recs| && rest == recs[at..] && |rest| >= EXT_BYTES + e.off + e.len
    requires tail == rest[EXT_BYTES..EXT_BYTES + e.off + e.len]
    ensures var a := at + EXT_BYTES + e.off;
      a + e.len <= |recs| && |tail| == e.off + e.len && recs[a..a + e.len] == tail[e.off..e.off + e.len]
  {
    assert tail[e.off..e.off + e.len] == rest[EXT_BYTES + e.off..EXT_BYTES + e.off + e.len];
    RecordWalk.Sub(recs, at, EXT_BYTES + e.off, EXT_BYTES + e.off + e.len);
  }

  lemma {:induction false} RunAgrees(recs: bytes, at: nat, rest: bytes, n: nat)
    requires at <= |recs| && rest == recs[at..] && ParseTail(n, rest).Some?
    ensures var o := if n == COMPACT then CompactRun(recs, at) else if n == 1 then FullRun(recs, at) else None;
      o.Some? ==> RunHere(recs, ParseTail(n, rest).value.0, ParseTail(n, rest).value.1, o.value)
  {
    if n == COMPACT {
      CompactCommon(recs, at, rest);
    } else if n == 1 {
      FullCommon(recs, at, rest);
    }
  }

  /** Where a record's head puts its key and its tail. */
  lemma {:induction false} HeadAgrees(recs: bytes, off: nat, klen: nat, n: nat, at: nat)
    requires off % 4 == 0 && off + 4 <= |recs| && ParseRecord(recs, off).Some?
    requires klen == LeNat(recs[off..off + 2]) && n == LeNat(recs[off + 2..off + 4]) && at == AlignUp(off + 4 + klen)
    ensures KeyHere(recs, off, ParseRecord(recs, off).value.key)
    ensures at <= |recs| && ParseTail(n, recs[at..]).Some?
    ensures ParseRecord(recs, off).value.exts == ParseTail(n, recs[at..]).value.0
    ensures ParseRecord(recs, off).value.tail == ParseTail(n, recs[at..]).value.1
  {
    var s := recs[off..];
    RecordWalk.Sub(recs, off, 0, 2);
    RecordWalk.Sub(recs, off, 2, 4);
    HeadOfParsed(s);
    RecordWalk.Sub(recs, off, 4, 4 + klen);
    AlignedAt(off, 4 + klen);
    assert s[AlignUp(4 + klen)..] == recs[at..];
  }

  lemma {:induction false} RoomForHead(recs: bytes, off: nat)
    requires ParseRecord(recs, off).Some?
    ensures off + 4 <= |recs|
  {}

  /** Whatever the fast reading takes for a common record, the parser does too. */
  lemma {:induction false} CommonAgrees(recs: bytes, off: nat, p: Parsed)
    requires off % 4 == 0 && ParseRecord(recs, off) == Some(p)
    ensures off + 4 <= |recs| && KeyHere(recs, off, p.key)
    ensures CommonRun(recs, off).Some? ==> RunHere(recs, p.exts, p.tail, CommonRun(recs, off).value)
  {
    RoomForHead(recs, off);
    var klen, n := LeNat(recs[off..off + 2]), LeNat(recs[off + 2..off + 4]);
    var at := AlignUp(off + 4 + klen);
    HeadAgrees(recs, off, klen, n, at);
    RunAgrees(recs, at, recs[at..], n);
  }

  /** A whole run is its one value. */
  lemma {:induction false} CutOne(run: bytes)
    requires run != []
    ensures Cut(run, |run|) == [run]
  {
    assert run[..|run|] == run && run[|run|..] == [];
  }

  lemma {:induction false} EachOne(len: nat)
    ensures Each(len, 1) == Some(len)
  {
    EachDivides(len, 1);
  }

  /** A fixed run that decodes has a stride, and its values are its pieces. */
  lemma {:induction false} FixedValues(run: bytes, e: Ext)
    requires e.IsFixed() && |run| == e.len && ValuesOf(run, e).damage.None?
    ensures e.Records() > 0 && e.len > 0 && Each(e.len, e.Records()).Some? && Each(e.len, e.Records()).value > 0
    ensures ValuesOf(run, e).values == Cut(run, Each(e.len, e.Records()).value)
  {}

  lemma {:induction false} EmitOne(k: bytes, tail: bytes, content: seq<bytes>, e: Ext)
    ensures EmitExts(k, tail, content, [e]) == EmitExt(k, tail, content, e)
  {
    assert [e][..0] == [];
    assert [] + EmitExt(k, tail, content, e) == EmitExt(k, tail, content, e);
  }

  /** What a common record hands out. */
  lemma {:induction false} CommonEmits(recs: bytes, p: Parsed, o: OneRun, content: seq<bytes>)
    requires RunHere(recs, p.exts, p.tail, o) && Sane(p, content)
    ensures Common(recs, p.key, o, Emit(p, content))
  {
    var e := p.exts[0];
    assert SaneExt(p.tail, content, e) && p.exts == [e];
    FixedValues(recs[o.at..o.at + o.len], e);
    EmitOne(p.key, p.tail, content, e);
  }

  /** What the fast loop needs of a common record. */
  lemma {:induction false} CommonFacts(recs: bytes, off: nat, p: Parsed, content: seq<bytes>)
    requires off % 4 == 0 && ParseRecord(recs, off) == Some(p) && Sane(p, content)
    ensures off + 4 <= |recs| && KeyHere(recs, off, p.key)
    ensures CommonRun(recs, off).Some? ==>
      Common(recs, p.key, CommonRun(recs, off).value, Emit(p, content)) && |p.exts| == 1 && p.exts[0].IsInline()
  {
    CommonAgrees(recs, off, p);
    var o := CommonRun(recs, off);
    if o.Some? { CommonEmits(recs, p, o.value, content); }
  }

  /** One fixed run and what it hands out. */
  ghost predicate Common(recs: bytes, k: bytes, o: OneRun, emitted: seq<Entry>) {
    && o.at + o.len <= |recs| && o.records > 0 && o.len > 0 && Each(o.len, o.records).Some? && Each(o.len, o.records).value > 0
    && emitted == Pairs(k, Cut(recs[o.at..o.at + o.len], Each(o.len, o.records).value))
  }

  /** A record read in place. */
  method FastRecord(recs: bytes, off: nat, ghost p: Parsed, ghost content: seq<bytes>) returns (r: Fast)
    requires off % 4 == 0 && ParseRecord(recs, off) == Some(p) && Sane(p, content)
    ensures !r.Damaged? && (r.Emits? ==> r.entries == Emit(p, content) && |p.exts| == 1 && p.exts[0].IsInline())
  {
    CommonFacts(recs, off, p, content);
    var o := CommonRun(recs, off);
    if o.None? {
      return Other;
    }
    r := FastRun(recs, off, o.value, p.key, Emit(p, content));
  }

  /** The run of a common record handed out: one value without a division, otherwise by its stride. */
  method FastRun(recs: bytes, off: nat, o: OneRun, ghost k: bytes, ghost emitted: seq<Entry>) returns (r: Fast)
    requires off + 4 <= |recs| && KeyHere(recs, off, k) && Common(recs, k, o, emitted)
    ensures r == Emits(emitted)
  {
    if o.records == 0 || o.len == 0 || o.at + o.len > |recs| {
      return Damaged;
    }
    var klen := LeNat(recs[off..off + 2]);
    if off + 4 + klen > |recs| {
      return Other;
    }
    r := FastValues(recs[off + 4..off + 4 + klen], recs[o.at..o.at + o.len], o.records);
  }

  /** A run's values beside its key. */
  method FastValues(k: bytes, run: bytes, records: nat) returns (r: Fast)
    requires run != [] && records > 0 && Each(|run|, records).Some? && Each(|run|, records).value > 0
    ensures r == Emits(Pairs(k, Cut(run, Each(|run|, records).value)))
  {
    if records == 1 {
      CutOne(run);
      EachOne(|run|);
      return Emits([Entry(k, run)]);
    }
    var w := Each(|run|, records);
    if w.None? || w.value == 0 {
      return Damaged;
    }
    var vs := CutRun(run, w.value);
    r := Emits(Pairs(k, vs));
  }

  // ---------------------------------------------------------------- a block, kept across keys

  /** What the scan reads blocks through: checks that pass, and blocks that decode to `content`. */
  ghost predicate Blocks(reader: Reader, z: Chunked.Codec, data: seq<bytes>, content: seq<bytes>)
    reads reader
  {
    && BlobRead.Ready(reader, data) && BlobRead.Contents(z, reader.t, data, content, reader.checks)
  }

  /** What a source lends is the block's own bytes. */
  ghost predicate Lends(lent: seq<Option<bytes>>, data: seq<bytes>) {
    |lent| == |data| && forall i :: 0 <= i < |lent| && lent[i].Some? ==> lent[i].value == data[i]
  }

  /** A plain block, whole, checked. */
  method WholeBlock(reader: Reader, id: nat, lent: bytes, ghost data: seq<bytes>) returns (ok: bool)
    requires BlobRead.Ready(reader, data) && id < |data| && lent == data[id]
    modifies reader`verified
    ensures BlobRead.Ready(reader, data) && ok
  {
    WholeBlockPasses(reader.t, data, id, reader.verified);
    assert data[id][0..0 + |data[id]|] == data[id];
    ok := reader.Verify(Read(id, lent, 0, 0, |lent|), data);
  }

  /** The block a scan keeps: none, or the bytes of one the source lends. */
  ghost predicate Keeps(cached: Option<(nat, bytes)>, lent: seq<Option<bytes>>, content: seq<bytes>) {
    cached.Some? ==>
      var id := cached.value.0; id < |content| && id < |lent| && lent[id].Some? && cached.value.1 == content[id]
  }

  /** Whether an extent can be read by itself: from its record, or with a check its span passes. */
  predicate Readable(t: Table, checks: bool, e: Ext) {
    e.IsInline() || (e.block < |t.locs| && BlobRead.Passes(t, checks, e))
  }

  /** An extent a scan can read: so, or in a block sliced whole. */
  predicate Reached(t: Table, checks: bool, lent: seq<Option<bytes>>, e: Ext) {
    Readable(t, checks, e) || (e.block < |lent| && lent[e.block].Some?)
  }

  ghost predicate AllReached(t: Table, checks: bool, lent: seq<Option<bytes>>, exts: seq<Ext>) {
    forall i :: 0 <= i < |exts| ==> Reached(t, checks, lent, exts[i])
  }

  /** What the first extents hand out begins what all do. */
  lemma {:induction false} EmitsFirst(k: bytes, tail: bytes, content: seq<bytes>, exts: seq<Ext>, i: nat)
    requires i <= |exts|
    ensures EmitExts(k, tail, content, exts[..i]) <= EmitExts(k, tail, content, exts)
  {
    if i < |exts| {
      EmitsFirst(k, tail, content, exts[..|exts| - 1], i);
      assert exts[..|exts| - 1][..i] == exts[..i];
    } else {
      assert exts[..i] == exts;
    }
  }
}
