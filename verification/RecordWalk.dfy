/** Records laid down in place and walked end to end. */
module RecordWalk {
  import opened Bytes
  import opened Runs
  import opened Wrappers
  import opened Records
  import opened RecordProofs

  // ---------------------------------------------------------------- in place

  /** Bytes copied over an array's, all others as they were. */
  method Put(a: array<byte>, at: nat, src: bytes)
    requires at + |src| <= a.Length
    modifies a
    ensures a[at..at + |src|] == src
    ensures forall j :: 0 <= j < a.Length && !(at <= j < at + |src|) ==> a[j] == old(a[j])
  {
    forall k | 0 <= k < |src| {
      a[at + k] := src[k];
    }
  }

  lemma {:induction false} Join(a: array<byte>, i: nat, j: nat, k: nat)
    requires i <= j <= k <= a.Length
    ensures a[i..k] == a[i..j] + a[j..k]
  {}

  /** One extent more, after those written from `start` to `at`. */
  method PutExt(rec: array<byte>, start: nat, at: nat, exts: seq<Ext>, i: nat)
    requires i < |exts| && start <= at && at + EXT_BYTES <= rec.Length
    requires rec[start..at] == AllExtBytes(exts[..i])
    modifies rec
    ensures rec[start..at + EXT_BYTES] == AllExtBytes(exts[..i + 1])
    ensures forall j :: 0 <= j < rec.Length && !(at <= j < at + EXT_BYTES) ==> rec[j] == old(rec[j])
  {
    Put(rec, at, ExtBytes(exts[i]));
    assert rec[start..at] == old(rec[start..at]);
    Join(rec, start, at, at + EXT_BYTES);
    ExtsSnoc(exts[..i], exts[i]);
    assert exts[..i + 1] == exts[..i] + [exts[i]];
  }

  /** Every extent written from `start` on; where they end. */
  method PutExts(rec: array<byte>, start: nat, exts: seq<Ext>) returns (at: nat)
    requires start + EXT_BYTES * |exts| <= rec.Length
    modifies rec
    ensures at == start + EXT_BYTES * |exts|
    ensures rec[start..at] == AllExtBytes(exts)
    ensures forall j :: 0 <= j < rec.Length && !(start <= j < at) ==> rec[j] == old(rec[j])
  {
    at := start;
    assert exts[..0] == [];
    for i := 0 to |exts|
      invariant at == start + EXT_BYTES * i
      invariant rec[start..at] == AllExtBytes(exts[..i])
      invariant forall j :: 0 <= j < rec.Length && !(start <= j < at) ==> rec[j] == old(rec[j])
    {
      PutExt(rec, start, at, exts, i);
      at := at + EXT_BYTES;
    }
    assert exts[..|exts|] == exts;
  }

  lemma {:induction false} ExtsSnoc(exts: seq<Ext>, e: Ext)
    ensures AllExtBytes(exts + [e]) == AllExtBytes(exts) + ExtBytes(e)
  {
    if exts == [] {
      assert exts + [e] == [e] && [e][1..] == [];
    } else {
      assert (exts + [e])[1..] == exts[1..] + [e];
      ExtsSnoc(exts[1..], e);
    }
  }

  /** The head of a record but for its count word. */
  method PutKey(rec: array<byte>, key: bytes) returns (at: nat)
    requires AlignUp(4 + |key|) <= rec.Length
    modifies rec
    ensures at == AlignUp(4 + |key|)
    ensures rec[..2] == LeBytes(|key|, 2) && rec[4..at] == key + Pad(4 + |key|)
  {
    Put(rec, 0, LeBytes(|key|, 2));
    Put(rec, 4, key);
    at := AlignUp(4 + |key|);
    label before:
    Put(rec, 4 + |key|, Pad(4 + |key|));
    assert rec[4..4 + |key|] == old@before(rec[4..4 + |key|]);
    Join(rec, 4, 4 + |key|, at);
  }

  /** The count word: the head is whole. */
  method PutCount(rec: array<byte>, ghost key: bytes, n: nat, at: nat)
    requires at == AlignUp(4 + |key|) <= rec.Length
    requires rec[..2] == LeBytes(|key|, 2) && rec[4..at] == key + Pad(4 + |key|)
    modifies rec
    ensures rec[..at] == Head(key, n)
  {
    Put(rec, 2, LeBytes(n, 2));
    assert rec[..2] == old(rec[..2]) && rec[4..at] == old(rec[4..at]);
    Join(rec, 0, 2, 4);
    Join(rec, 0, 4, at);
    assert rec[..4] == rec[0..4] && rec[..2] == rec[0..2] && rec[..at] == rec[0..at];
    var k, w := LeBytes(|key|, 2), LeBytes(n, 2);
    assert k + w + (key + Pad(4 + |key|)) == k + w + key + Pad(4 + |key|);
  }

  /** The tail and its padding: the record's end. */
  method PutTail(rec: array<byte>, at: nat, tail: bytes)
    requires rec.Length == at + AlignUp(|tail|)
    modifies rec
    ensures rec[at..] == tail + Pad(|tail|)
    ensures rec[..at] == old(rec[..at])
  {
    Put(rec, at, tail);
    label before:
    Put(rec, at + |tail|, Pad(|tail|));
    assert rec[at..at + |tail|] == old@before(rec[at..at + |tail|]);
    Join(rec, at, at + |tail|, rec.Length);
    assert rec[at..] == rec[at..rec.Length];
    assert rec[..at] == old(rec[..at]);
  }

  /** The extents, or what stands for them; where the tail begins. */
  method PutBody(rec: array<byte>, head: nat, exts: seq<Ext>, compact: bool) returns (at: nat)
    requires head + |Body(exts, compact)| <= rec.Length
    modifies rec
    ensures at == head + |Body(exts, compact)|
    ensures rec[head..at] == Body(exts, compact) && rec[..head] == old(rec[..head])
  {
    if compact && Compacts(exts) {
      Put(rec, head, CompactHeader(exts[0]));
      at := head + 4;
    } else {
      at := PutExts(rec, head, exts);
    }
  }

  /** The parts of a record are as long as the record. */
  lemma {:induction false} Parts(key: bytes, exts: seq<Ext>, tail: bytes, compact: bool, len: nat)
    requires RecordLenFor(|key|, exts, |tail|, compact) == Some(len)
    ensures len == AlignUp(4 + |key|) + |Body(exts, compact)| + AlignUp(|tail|)
  {}

  /** A record's head; where it ends. */
  method PutHead(rec: array<byte>, key: bytes, n: nat) returns (head: nat)
    requires AlignUp(4 + |key|) <= rec.Length
    modifies rec
    ensures head == AlignUp(4 + |key|) && rec[..head] == Head(key, n)
  {
    head := PutKey(rec, key);
    PutCount(rec, key, n, head);
  }

  /** All of a record before its tail; where the tail begins. */
  method PutFront(rec: array<byte>, key: bytes, exts: seq<Ext>, compact: bool, ghost b: bytes) returns (at: nat)
    requires b == Body(exts, compact) && AlignUp(4 + |key|) + |b| <= rec.Length
    modifies rec
    ensures at == AlignUp(4 + |key|) + |b| && rec[..at] == Head(key, CountWord(exts, compact)) + b
  {
    var head := PutHead(rec, key, CountWord(exts, compact));
    ghost var h := rec[..head];
    at := PutBody(rec, head, exts, compact);
    assert rec[..at] == rec[..head] + rec[head..at];
  }

  lemma {:induction false} RecordIs(rec: bytes, at: nat, key: bytes, exts: seq<Ext>, tail: bytes, compact: bool)
    requires at <= |rec| && rec[..at] == Head(key, CountWord(exts, compact)) + Body(exts, compact)
    requires rec[at..] == tail + Pad(|tail|)
    ensures rec == RecordOf(key, exts, tail, compact)
    ensures at + |tail| <= |rec| && rec[at..at + |tail|] == tail
  {
    var h, b, t := Head(key, CountWord(exts, compact)), Body(exts, compact), tail + Pad(|tail|);
    assert rec == rec[..at] + rec[at..] == h + (b + t);
    assert rec[at..at + |tail|] == rec[at..][..|tail|];
  }

  /** One record into a slice exactly as long as it is; where its tail begins. */
  method RecordInto(rec: array<byte>, key: bytes, exts: seq<Ext>, tail: bytes, compact: bool) returns (at: nat)
    requires RecordLenFor(|key|, exts, |tail|, compact) == Some(rec.Length)
    modifies rec
    ensures rec[..] == RecordOf(key, exts, tail, compact)
    ensures at + |tail| <= rec.Length && rec[at..at + |tail|] == tail
  {
    Parts(key, exts, tail, compact, rec.Length);
    at := PutFront(rec, key, exts, compact, Body(exts, compact));
    PutTail(rec, at, tail);
    ghost var all := rec[..];
    assert all[..at] == rec[..at] && all[at..] == rec[at..];
    RecordIs(all, at, key, exts, tail, compact);
  }

  // ---------------------------------------------------------------- the cheap readers

  lemma {:induction false} Sub(buf: bytes, off: nat, i: nat, j: nat)
    requires off <= |buf| && i <= j <= |buf[off..]|
    ensures buf[off..][i..j] == buf[off + i..off + j]
  {}

  /** Where the whole record parses, the key alone reads the same, whatever the bytes. */
  lemma {:induction false} KeyAgrees(buf: bytes, off: nat)
    requires ParseRecord(buf, off).Some?
    ensures RecordKey(buf, off) == Some(ParseRecord(buf, off).value.key)
  {
    var s := buf[off..];
    Sub(buf, off, 0, 2);
    Sub(buf, off, 2, 4);
    Sub(buf, off, 4, 4 + LeNat(s[..2]));
  }

  /** What the tail takes of a compact record is said by its first word. */
  lemma {:induction false} CompactTakes(rest: bytes)
    requires CompactTail(rest).Some?
    ensures |rest| >= 2 && CompactTail(rest).value.2 == 4 + LeNat(rest[..2])
  {}

  lemma {:induction false} HeadTakes(s: bytes)
    requires ParseHead(s).Some? && LeNat(s[2..4]) == COMPACT
    ensures var klen := LeNat(s[..2]);
      var h := AlignUp(4 + klen);
      && |s| >= h + 2 && ParseHead(s).value.key == s[4..4 + klen]
      && ParseHead(s).value.len == RecordLenCompact(klen, LeNat(s[h..h + 2]))
  {
    var h := AlignUp(4 + LeNat(s[..2]));
    var rest := s[h..];
    CompactTakes(rest);
    assert rest[..2] == s[h..h + 2];
    PadEnds(h + 4, LeNat(rest[..2]));
  }

  lemma {:induction false} CompactAgrees(buf: bytes, off: nat, s: bytes, klen: nat)
    requires off <= |buf| && s == buf[off..] && ParseHead(s).Some? && off + ParseHead(s).value.len <= |buf|
    requires LeNat(s[2..4]) == COMPACT && klen == LeNat(s[..2])
    ensures CompactNext(buf, off, klen) == Some((ParseHead(s).value.key, off + ParseHead(s).value.len))
  {
    var h := AlignUp(4 + klen);
    HeadTakes(s);
    Sub(buf, off, 4, 4 + klen);
    Sub(buf, off, h, h + 2);
  }

  /** A record's length read cheaply is its length parsed, whatever the bytes. */
  lemma {:induction false} NextAgrees(buf: bytes, off: nat)
    requires ParseRecord(buf, off).Some? && off + ParseRecord(buf, off).value.len <= |buf|
    ensures RecordKeyNext(buf, off) == ParsedNext(buf, off)
  {
    var s := buf[off..];
    Sub(buf, off, 0, 2);
    Sub(buf, off, 2, 4);
    if LeNat(s[2..4]) == COMPACT { CompactAgrees(buf, off, s, LeNat(s[..2])); }
  }

  // ---------------------------------------------------------------- the walk

  datatype Rec = Rec(key: bytes, exts: seq<Ext>, tail: bytes)

  ghost predicate AllWritten(rs: seq<Rec>) {
    forall i :: 0 <= i < |rs| ==> Written(rs[i].key, rs[i].exts, rs[i].tail)
  }

  function ImageOf(r: Rec, compact: bool): bytes { RecordOf(r.key, r.exts, r.tail, compact) }

  /** Records end to end. */
  function AllRecords(rs: seq<Rec>, compact: bool): bytes {
    if rs == [] then [] else ImageOf(rs[0], compact) + AllRecords(rs[1..], compact)
  }

  function KeysOf(rs: seq<Rec>): (ks: seq<bytes>)
    ensures |ks| == |rs|
  {
    seq(|rs|, i requires 0 <= i < |rs| => rs[i].key)
  }

  lemma {:induction false} NextForward(buf: bytes, off: nat)
    ensures RecordKeyNext(buf, off).Some? ==> off < RecordKeyNext(buf, off).value.1 <= |buf|
  {}

  /** Every key from `off` to the end of the buffer; `None` where a record is cut short. */
  function KeysFrom(buf: bytes, off: nat): Option<seq<bytes>>
    decreases |buf| - off
  {
    if off == |buf| then Some([])
    else
      NextForward(buf, off);
      var r := RecordKeyNext(buf, off);
      if r.None? then None
      else
        var rest := KeysFrom(buf, r.value.1);
        if rest.None? then None else Some([r.value.0] + rest.value)
  }

  /** The walk a reader takes, following each record's end to the next record. */
  method WalkKeys(buf: bytes) returns (keys: seq<bytes>, whole: bool)
    ensures whole <==> KeysFrom(buf, 0).Some?
    ensures whole ==> KeysFrom(buf, 0) == Some(keys)
  {
    keys, whole := [], true;
    var off := 0;
    assert KeysFrom(buf, 0).Some? ==> [] + KeysFrom(buf, 0).value == KeysFrom(buf, 0).value;
    while off != |buf|
      invariant off <= |buf|
      invariant KeysFrom(buf, 0).Some? <==> KeysFrom(buf, off).Some?
      invariant KeysFrom(buf, off).Some? ==> KeysFrom(buf, 0) == Some(keys + KeysFrom(buf, off).value)
      decreases |buf| - off
    {
      var r := RecordKeyNext(buf, off);
      if r.None? {
        return keys, false;
      }
      NextForward(buf, off);
      ghost var rest := KeysFrom(buf, r.value.1);
      assert rest.Some? ==> keys + ([r.value.0] + rest.value) == keys + [r.value.0] + rest.value;
      keys := keys + [r.value.0];
      off := r.value.1;
    }
    assert keys + [] == keys;
  }

  lemma {:induction false} TailOfOne(exts: seq<Ext>)
    requires Compacts(exts)
    ensures TailLen(exts) == exts[0].len
  {
    assert exts[1..] == [];
  }

  lemma {:induction false} HeaderLen(e: Ext, rest: bytes)
    requires e.len < COMPACT_RUN
    ensures LeNat((CompactHeader(e) + rest)[..2]) == e.len
  {
    HalfWord(e.len);
    assert (CompactHeader(e) + rest)[..2] == LeBytes(e.len, 2);
  }

  lemma {:induction false} CompactReads(buf: bytes, off: nat, key: bytes, e: Ext, rest: bytes)
    requires |key| < U16 && e.len < COMPACT_RUN && |rest| >= AlignUp(e.len)
    requires off <= |buf| && buf[off..] == Head(key, COMPACT) + (CompactHeader(e) + rest)
    ensures RecordKeyNext(buf, off) == Some((key, off + RecordLenCompact(|key|, e.len)))
  {
    var h := AlignUp(4 + |key|);
    HeadReads(key, COMPACT, CompactHeader(e) + rest);
    HeaderLen(e, rest);
    Sub(buf, off, 0, 2);
    Sub(buf, off, 2, 4);
    Sub(buf, off, 4, 4 + |key|);
    Sub(buf, off, h, h + 2);
    Sub(buf[off..], h, 0, 2);
  }

  lemma {:induction false} FullReads(buf: bytes, off: nat, key: bytes, exts: seq<Ext>, n: nat, tail: bytes, post: bytes)
    requires n == |exts| && Written(key, exts, tail) && |post| >= AlignUp(|tail|) - |tail|
    requires off <= |buf| && buf[off..] == Head(key, n) + (AllExtBytes(exts) + (tail + post))
    ensures RecordKeyNext(buf, off) == Some((key, off + RecordLenTail(|key|, n, |tail|)))
  {
    FullParses(key, exts, n, tail, post);
    NextAgrees(buf, off);
  }

  lemma {:induction false} ImageLength(r: Rec, compact: bool)
    requires Written(r.key, r.exts, r.tail)
    ensures |ImageOf(r, compact)| ==
      if compact && Compacts(r.exts) then RecordLenCompact(|r.key|, |r.tail|)
      else RecordLenTail(|r.key|, |r.exts|, |r.tail|)
  {
    RecordLength(r.key, r.exts, r.tail, compact);
  }

  /** A record of the full form, and what follows it. */
  lemma {:induction false} FullImage(r: Rec, compact: bool, post: bytes)
    requires Written(r.key, r.exts, r.tail) && !(compact && Compacts(r.exts))
    ensures |ImageOf(r, compact)| == RecordLenTail(|r.key|, |r.exts|, |r.tail|)
    ensures ImageOf(r, compact) + post == Head(r.key, |r.exts|) + (AllExtBytes(r.exts) + (r.tail + (Pad(|r.tail|) + post)))
  {
    ImageLength(r, compact);
    Regroup(Head(r.key, |r.exts|), AllExtBytes(r.exts), r.tail, Pad(|r.tail|), post);
  }

  /** A record of the compact form, and what follows it. */
  lemma {:induction false} CompactImage(r: Rec, post: bytes)
    requires Compacts(r.exts)
    ensures ImageOf(r, true) + post == Head(r.key, COMPACT) + (CompactHeader(r.exts[0]) + (r.tail + (Pad(|r.tail|) + post)))
  {
    Regroup(Head(r.key, COMPACT), CompactHeader(r.exts[0]), r.tail, Pad(|r.tail|), post);
  }

  /** A record of the full form at its place. */
  lemma {:induction false} FullCase(buf: bytes, off: nat, r: Rec, compact: bool, img: bytes, post: bytes)
    requires Written(r.key, r.exts, r.tail) && !(compact && Compacts(r.exts))
    requires img == ImageOf(r, compact) && off <= |buf| && buf[off..] == img + post
    ensures RecordKeyNext(buf, off) == Some((r.key, off + |img|))
  {
    FullImage(r, compact, post);
    FullReads(buf, off, r.key, r.exts, |r.exts|, r.tail, Pad(|r.tail|) + post);
  }

  /** A record of the compact form at its place. */
  lemma {:induction false} CompactCase(buf: bytes, off: nat, r: Rec, img: bytes, post: bytes)
    requires Written(r.key, r.exts, r.tail) && Compacts(r.exts)
    requires img == ImageOf(r, true) && off <= |buf| && buf[off..] == img + post
    ensures RecordKeyNext(buf, off) == Some((r.key, off + |img|))
  {
    ImageLength(r, true);
    CompactImage(r, post);
    TailOfOne(r.exts);
    CompactReads(buf, off, r.key, r.exts[0], r.tail + (Pad(|r.tail|) + post));
  }

  /** A record at its place: its key, and its end. */
  lemma {:induction false} NextReads(buf: bytes, off: nat, r: Rec, compact: bool, img: bytes, post: bytes)
    requires Written(r.key, r.exts, r.tail)
    requires img == ImageOf(r, compact) && off <= |buf| && buf[off..] == img + post
    ensures RecordKeyNext(buf, off) == Some((r.key, off + |img|))
  {
    if compact && Compacts(r.exts) {
      CompactCase(buf, off, r, img, post);
    } else {
      FullCase(buf, off, r, compact, img, post);
    }
  }

  lemma {:induction false} After(buf: bytes, off: nat, b: bytes, rest: bytes)
    requires off <= |buf| && buf[off..] == b + rest
    ensures off + |b| <= |buf| && buf[off + |b|..] == rest
  {
    assert buf[off + |b|..] == (b + rest)[|b|..];
  }

  lemma {:induction false} VisitOne(buf: bytes, off: nat, key: bytes, next: nat)
    requires RecordKeyNext(buf, off) == Some((key, next))
    ensures off < next <= |buf|
    ensures KeysFrom(buf, next).Some? ==> KeysFrom(buf, off) == Some([key] + KeysFrom(buf, next).value)
  {
    NextForward(buf, off);
  }

  /** One record visited. */
  lemma {:induction false} Visit(buf: bytes, off: nat, r: Rec, compact: bool, b: bytes, rest: bytes)
    requires Written(r.key, r.exts, r.tail) && b == ImageOf(r, compact)
    requires off <= |buf| && buf[off..] == b + rest
    ensures off + |b| <= |buf| && buf[off + |b|..] == rest
    ensures KeysFrom(buf, off + |b|).Some? ==>
      KeysFrom(buf, off) == Some([r.key] + KeysFrom(buf, off + |b|).value)
  {
    NextReads(buf, off, r, compact, b, rest);
    After(buf, off, b, rest);
    VisitOne(buf, off, r.key, off + |b|);
  }

  /** Over concatenated records the walk meets every key once, in order, and stops at the last byte. */
  lemma {:induction false} WalkVisits(buf: bytes, off: nat, rs: seq<Rec>, compact: bool)
    requires AllWritten(rs) && off <= |buf| && buf[off..] == AllRecords(rs, compact)
    ensures KeysFrom(buf, off) == Some(KeysOf(rs))
    decreases |rs|
  {
    if rs != [] {
      var b := ImageOf(rs[0], compact);
      Visit(buf, off, rs[0], compact, b, AllRecords(rs[1..], compact));
      WalkVisits(buf, off + |b|, rs[1..], compact);
      assert KeysOf(rs) == [rs[0].key] + KeysOf(rs[1..]);
    }
  }
}
