/** A range of a chunked block read back: only the chunks it touches, each checked before it is decoded. */
module ChunkedRead {
  import opened Bytes
  import opened Wrappers
  import opened Chunked

  datatype ReadError = Truncated | Implausible | DirectoryPast | OutOfRange | Mismatch | NotDecoded

  /** What a block is, and what its 32-bit words can say of it. */
  ghost predicate IsBlock(z: Codec, blk: bytes, src: bytes, cs: nat, sums: bool) {
    && 0 < cs < U32 && blk == ChunkedOf(z, src, cs, sums) && z.Inverts()
    && |Payload(z, src, cs, Chunks(|src|, cs))| < U32 && Chunks(|src|, cs) < U32
  }

  // ---------------------------------------------------------------- the directory

  lemma {:induction false} PayloadGrows(z: Codec, src: bytes, cs: nat, i: nat, j: nat)
    requires cs > 0 && i <= j <= Chunks(|src|, cs)
    ensures Payload(z, src, cs, i) <= Payload(z, src, cs, j)
    decreases j
  {
    if i < j { PayloadGrows(z, src, cs, i, j - 1); }
  }

  /** A directory's words in front of the chunks. */
  ghost predicate Fronted(blk: bytes, ws: seq<nat>, payload: bytes, n: nat) {
    blk == Words(ws, 4) + payload && |ws| == 2 * n + 3 && forall k :: 0 <= k < |ws| ==> ws[k] < U32
  }

  /** A word of the directory, as any reader finds it. */
  lemma {:induction false} WordSays(blk: bytes, ws: seq<nat>, payload: bytes, n: nat, k: nat, at: nat)
    requires Fronted(blk, ws, payload, n) && k < |ws| && at == 4 * k
    ensures at + 4 <= |blk| && LeNat(blk[at..at + 4]) == ws[k]
  {
    WordSizes();
    WordPlaceIs(4, k);
    WordRead(ws, 4, k, payload);
  }

  lemma {:induction false} FrontLength(blk: bytes, ws: seq<nat>, payload: bytes, n: nat)
    requires Fronted(blk, ws, payload, n)
    ensures |blk| == ChunkHeaderLen(n) + |payload|
  {
    HeaderLenIs(n);
  }

  lemma {:induction false} StartsFit(z: Codec, src: bytes, cs: nat, i: nat)
    requires cs > 0 && i <= Chunks(|src|, cs) && |Payload(z, src, cs, Chunks(|src|, cs))| < U32
    ensures Starts(z, src, cs)[i] < U32
  {
    PayloadGrows(z, src, cs, i, Chunks(|src|, cs));
  }

  lemma {:induction false} DirectoryFits(cs: nat, n: nat, starts: seq<nat>, crcs: seq<nat>)
    requires cs < U32 && n < U32
    requires (forall i :: 0 <= i < |starts| ==> starts[i] < U32) && forall i :: 0 <= i < |crcs| ==> crcs[i] < U32
    ensures var ws := [cs, n] + starts + crcs; forall k :: 0 <= k < |ws| ==> ws[k] < U32
  {}

  lemma {:induction false} BlockFronted(z: Codec, blk: bytes, src: bytes, cs: nat, sums: bool)
    requires IsBlock(z, blk, src, cs, sums)
    ensures var n := Chunks(|src|, cs); Fronted(blk, Directory(z, src, cs, sums), Payload(z, src, cs, n), n)
  {
    forall i | 0 <= i <= Chunks(|src|, cs) ensures Starts(z, src, cs)[i] < U32 { StartsFit(z, src, cs, i); }
    DirectoryFits(cs, Chunks(|src|, cs), Starts(z, src, cs), Sums(z, src, cs, sums));
  }

  /** What the directory says of a chunk: where it is stored, and its checksum. */
  ghost predicate Says(ws: seq<nat>, payload: bytes, n: nat, i: nat, kept: bytes, sums: bool) {
    && i < n && |ws| == 2 * n + 3 && ws[2 + i] <= ws[3 + i] <= |payload|
    && payload[ws[2 + i]..ws[3 + i]] == kept && (sums ==> ws[n + 3 + i] == Sum(kept))
  }

  lemma {:induction false} PayloadSlice(z: Codec, src: bytes, cs: nat, i: nat, n: nat)
    requires cs > 0 && i < n == Chunks(|src|, cs)
    ensures var s0, s1 := |Payload(z, src, cs, i)|, |Payload(z, src, cs, i + 1)|;
      s0 <= s1 <= |Payload(z, src, cs, n)| && Payload(z, src, cs, n)[s0..s1] == Kept(z, ChunkOf(src, cs, i))
  {
    PayloadGrows(z, src, cs, i + 1, n);
    var p, q := Payload(z, src, cs, n), Payload(z, src, cs, i + 1);
    var s0 := |Payload(z, src, cs, i)|;
    assert p[s0..|q|] == p[..|q|][s0..];
  }

  lemma {:induction false} DirectoryAt(cs: nat, n: nat, starts: seq<nat>, crcs: seq<nat>, i: nat)
    requires |starts| == n + 1 && |crcs| == n && i < n
    ensures var ws := [cs, n] + starts + crcs;
      ws[2 + i] == starts[i] && ws[3 + i] == starts[i + 1] && ws[n + 3 + i] == crcs[i]
  {}

  lemma {:induction false} DirectorySays(z: Codec, src: bytes, cs: nat, sums: bool, i: nat, n: nat)
    requires cs > 0 && i < n == Chunks(|src|, cs)
    ensures Says(Directory(z, src, cs, sums), Payload(z, src, cs, n), n, i, Kept(z, ChunkOf(src, cs, i)), sums)
  {
    PayloadSlice(z, src, cs, i, n);
    DirectoryAt(cs, n, Starts(z, src, cs), Sums(z, src, cs, sums), i);
  }

  /** Stored bytes that read back as a chunk: as long as it, they are it; otherwise they decompress to it. */
  ghost predicate Decodes(z: Codec, kept: bytes, plain: bytes) {
    if |kept| == |plain| then kept == plain else z.decompress(kept, |plain|) == Some(plain)
  }

  /** A verbatim chunk and a compressed one are never confused. */
  lemma {:induction false} KeptDecodes(z: Codec, raw: bytes)
    requires z.Inverts()
    ensures Decodes(z, Kept(z, raw), raw)
  {}

  /** Chunk `i` is where the directory says, and reads back as its span of the source. */
  ghost predicate Here(z: Codec, ws: seq<nat>, payload: bytes, n: nat, i: nat, kept: bytes, src: bytes, cs: nat, verify: bool) {
    && Says(ws, payload, n, i, kept, verify)
    && Upto(i, cs, |src|) <= Upto(i + 1, cs, |src|) && ChunkLo(i, cs) == Upto(i, cs, |src|)
    && Decodes(z, kept, src[Upto(i, cs, |src|)..Upto(i + 1, cs, |src|)])
  }

  ghost predicate AllHere(z: Codec, ws: seq<nat>, payload: bytes, n: nat, kept: seq<bytes>, src: bytes, cs: nat, verify: bool) {
    |kept| == n && forall i :: 0 <= i < n ==> Here(z, ws, payload, n, i, kept[i], src, cs, verify)
  }

  /** Every chunk of a block, in the terms a reader has. */
  lemma {:induction false} BlockReads(z: Codec, blk: bytes, src: bytes, cs: nat, sums: bool, verify: bool, n: nat)
    returns (ws: seq<nat>, payload: bytes, kept: seq<bytes>)
    requires IsBlock(z, blk, src, cs, sums) && n == Chunks(|src|, cs) && (verify ==> sums)
    ensures Fronted(blk, ws, payload, n) && AllHere(z, ws, payload, n, kept, src, cs, verify)
    ensures ws[0] == cs && ws[1] == n
  {
    BlockFronted(z, blk, src, cs, sums);
    ws, payload := Directory(z, src, cs, sums), Payload(z, src, cs, n);
    kept := seq(n, i requires 0 <= i < n => Kept(z, ChunkOf(src, cs, i)));
    forall i | 0 <= i < n ensures Here(z, ws, payload, n, i, kept[i], src, cs, verify) {
      ChunkIsHere(z, src, cs, sums, verify, i, n);
    }
  }

  lemma {:induction false} ChunkIsHere(z: Codec, src: bytes, cs: nat, sums: bool, verify: bool, i: nat, n: nat)
    requires z.Inverts() && cs > 0 && i < n == Chunks(|src|, cs) && (verify ==> sums)
    ensures Here(z, Directory(z, src, cs, sums), Payload(z, src, cs, n), n, i, Kept(z, ChunkOf(src, cs, i)), src, cs, verify)
  {
    DirectorySays(z, src, cs, sums, i, n);
    ChunkWithin(i, cs, |src|);
    KeptDecodes(z, ChunkOf(src, cs, i));
  }

  // ---------------------------------------------------------------- the reader

  /** One span of `d` replaced by the source's. */
  function Over(d: bytes, src: bytes, lo: nat, hi: nat): (r: bytes)
    requires lo <= hi <= |src| <= |d|
    ensures |r| == |d|
  {
    seq(|d|, j requires 0 <= j < |d| => if lo <= j < hi then src[j] else d[j])
  }

  lemma {:induction false} OverOver(d: bytes, src: bytes, a: nat, b: nat, c: nat)
    requires a <= b <= c <= |src| <= |d|
    ensures Over(Over(d, src, a, b), src, b, c) == Over(d, src, a, c)
  {}

  lemma {:induction false} OverNothing(d: bytes, src: bytes, a: nat)
    requires a <= |src| <= |d|
    ensures Over(d, src, a, a) == d
  {}

  /** Bytes copied over a destination's. */
  method CopyInto(dst: array<byte>, lo: nat, part: bytes)
    requires lo + |part| <= dst.Length
    modifies dst
    ensures dst[..] == old(dst[..lo]) + part + old(dst[lo + |part|..])
  {
    forall k | 0 <= k < |part| {
      dst[lo + k] := part[k];
    }
  }

  /** The stored bytes of one chunk, checked. */
  method StoredChunk(blk: bytes, i: nat, n: nat, verify: bool, ghost ws: seq<nat>, ghost payload: bytes, ghost kept: bytes)
    returns (err: Option<ReadError>, raw: bytes)
    requires Fronted(blk, ws, payload, n) && Says(ws, payload, n, i, kept, verify)
    ensures err.None? && raw == kept
  {
    var header, at, sum := ChunkHeaderLen(n), 8 + 4 * i, 8 + 4 * (n + 1) + 4 * i;
    WordSays(blk, ws, payload, n, 2 + i, at);
    WordSays(blk, ws, payload, n, 3 + i, at + 4);
    WordSays(blk, ws, payload, n, n + 3 + i, sum);
    FrontLength(blk, ws, payload, n);
    var s0, s1 := LeNat(blk[at..at + 4]), LeNat(blk[at + 4..at + 8]);
    if s1 < s0 || header + s1 > |blk| {
      return Some(OutOfRange), [];
    }
    SliceRight(Words(ws, 4), payload, s0, s1);
    raw := blk[header + s0..header + s1];
    if verify && Sum(raw) != LeNat(blk[sum..sum + 4]) {
      return Some(Mismatch), [];
    }
    err := None;
  }

  /** A chunk's stored bytes decoded over its span: verbatim where they are as long, otherwise decompressed. */
  method DecodeInto(z: Codec, raw: bytes, lo: nat, hi: nat, dst: array<byte>, ghost src: bytes) returns (err: Option<ReadError>)
    requires lo <= hi <= |src| <= dst.Length && Decodes(z, raw, src[lo..hi])
    modifies dst
    ensures err.None? && dst[..] == Over(old(dst[..]), src, lo, hi)
  {
    if |raw| == hi - lo {
      CopyInto(dst, lo, raw);
    } else {
      var out := z.decompress(raw, hi - lo);
      if out.None? {
        return Some(NotDecoded);
      }
      CopyInto(dst, lo, out.value);
    }
    err := None;
  }

  /** One chunk decoded into its place. */
  method ReadChunk(z: Codec, blk: bytes, uncompressed: nat, i: nat, n: nat, cs: nat, dst: array<byte>, verify: bool,
    ghost src: bytes, ghost ws: seq<nat>, ghost payload: bytes, ghost kept: bytes) returns (err: Option<ReadError>)
    requires Fronted(blk, ws, payload, n) && Here(z, ws, payload, n, i, kept, src, cs, verify)
    requires |src| == uncompressed <= dst.Length
    modifies dst
    ensures err.None? && dst[..] == Over(old(dst[..]), src, Upto(i, cs, |src|), Upto(i + 1, cs, |src|))
  {
    var raw;
    err, raw := StoredChunk(blk, i, n, verify, ws, payload, kept);
    if err.Some? {
      return;
    }
    err := DecodeInto(z, raw, ChunkLo(i, cs), ChunkHi(i, cs, uncompressed), dst, src);
  }

  /** The chunks a range touches. */
  function FirstChunk(a: nat, cs: nat): nat
    requires cs > 0
  {
    a / cs
  }

  function LastChunk(b: nat, cs: nat): nat
    requires cs > 0
  {
    (if b > 0 then b - 1 else 0) / cs
  }

  lemma {:induction false} TouchesFirst(a: nat, cs: nat)
    requires cs > 0
    ensures ChunkLo(FirstChunk(a, cs), cs) <= a < ChunkLo(FirstChunk(a, cs) + 1, cs)
  {
    ChunkLoIs(FirstChunk(a, cs), cs);
    assert a == cs * (a / cs) + a % cs;
  }

  lemma {:induction false} InOrder(i: nat, j: nat, cs: nat, x: nat)
    requires ChunkLo(i, cs) <= x < ChunkLo(j, cs)
    ensures i < j
  {
    if i >= j { ChunkOrder(j, i, cs); }
  }

  lemma {:induction false} Touches(a: nat, b: nat, cs: nat, len: nat)
    requires 0 < cs && a <= b <= len
    ensures FirstChunk(a, cs) <= LastChunk(b, cs) + 1 && (0 < len ==> LastChunk(b, cs) < Chunks(len, cs))
    ensures ChunkLo(FirstChunk(a, cs), cs) <= a && b <= ChunkHi(LastChunk(b, cs), cs, len) <= len
  {
    TouchesFirst(a, cs);
    if b > 0 {
      var i, j, n := FirstChunk(a, cs), LastChunk(b, cs), Chunks(len, cs);
      TouchesFirst(b - 1, cs);
      InOrder(i, j + 2, cs, a);
      ChunksReach(len, cs, n - 1);
      InOrder(j, n, cs, b - 1);
    }
  }

  /** What the chunks before the `i`th left, and that chunk after them. */
  method ReadNext(z: Codec, blk: bytes, uncompressed: nat, i: nat, n: nat, cs: nat, dst: array<byte>, verify: bool,
    ghost src: bytes, ghost ws: seq<nat>, ghost payload: bytes, ghost kept: bytes, ghost was: bytes, ghost start: nat)
    returns (err: Option<ReadError>)
    requires Fronted(blk, ws, payload, n) && Here(z, ws, payload, n, i, kept, src, cs, verify)
    requires |src| == uncompressed <= dst.Length == |was| && start <= Upto(i, cs, |src|)
    requires dst[..] == Over(was, src, start, Upto(i, cs, |src|))
    modifies dst
    ensures err.None? && start <= Upto(i + 1, cs, |src|) && dst[..] == Over(was, src, start, Upto(i + 1, cs, |src|))
  {
    OverOver(was, src, start, Upto(i, cs, |src|), Upto(i + 1, cs, |src|));
    err := ReadChunk(z, blk, uncompressed, i, n, cs, dst, verify, src, ws, payload, kept);
  }

  /** Every chunk from `first` up to `end`, in turn. */
  method ReadChunks(z: Codec, blk: bytes, uncompressed: nat, first: nat, end: nat, n: nat, cs: nat, dst: array<byte>,
    verify: bool, ghost src: bytes, ghost ws: seq<nat>, ghost payload: bytes, ghost kept: seq<bytes>)
    returns (err: Option<ReadError>)
    requires Fronted(blk, ws, payload, n) && AllHere(z, ws, payload, n, kept, src, cs, verify) && first <= end <= n
    requires uncompressed == |src| <= dst.Length
    modifies dst
    ensures err.None? && Upto(first, cs, |src|) <= Upto(end, cs, |src|)
    ensures dst[..] == Over(old(dst[..]), src, Upto(first, cs, |src|), Upto(end, cs, |src|))
  {
    ghost var was, start := dst[..], Upto(first, cs, |src|);
    OverNothing(was, src, start);
    err := None;
    var i := first;
    while i < end
      invariant err.None? && first <= i <= end && start <= Upto(i, cs, |src|)
      invariant dst[..] == Over(was, src, start, Upto(i, cs, |src|))
    {
      err := ReadNext(z, blk, uncompressed, i, n, cs, dst, verify, src, ws, payload, kept[i], was, start);
      if err.Some? {
        return;
      }
      i := i + 1;
    }
  }

  predicate PlausibleHead(blk: bytes)
    requires |blk| >= 8
  {
    var n := LeNat(blk[4..8]);
    LeNat(blk[0..4]) > 0 && 0 < n <= MAX_CHUNKS && |blk| >= ChunkHeaderLen(n)
  }

  /** The chunk size and count, where they are plausible and the directory is whole. */
  method ReadHead(blk: bytes) returns (err: Option<ReadError>, cs: nat, n: nat)
    ensures err.None? <==> |blk| >= 8 && PlausibleHead(blk)
    ensures err.None? ==> cs == LeNat(blk[0..4]) && n == LeNat(blk[4..8])
  {
    if |blk| < 8 {
      return Some(Truncated), 0, 0;
    }
    cs, n := LeNat(blk[0..4]), LeNat(blk[4..8]);
    if cs == 0 || n == 0 || n > MAX_CHUNKS {
      return Some(Implausible), cs, n;
    }
    if |blk| < ChunkHeaderLen(n) {
      return Some(DirectoryPast), cs, n;
    }
    err := None;
  }

  /** What a reader is told, and what it does with it. */
  method ReadFronted(z: Codec, blk: bytes, uncompressed: nat, a: nat, b: nat, dst: array<byte>, verify: bool,
    ghost src: bytes, ghost chunk: nat, ghost count: nat, ghost ws: seq<nat>, ghost payload: bytes, ghost kept: seq<bytes>)
    returns (err: Option<ReadError>)
    requires Fronted(blk, ws, payload, count) && AllHere(z, ws, payload, count, kept, src, chunk, verify)
    requires chunk > 0 && ws[0] == chunk && ws[1] == count && uncompressed == |src| <= dst.Length && a <= b
    requires FirstChunk(a, chunk) <= LastChunk(b, chunk) + 1 && (count > 0 ==> LastChunk(b, chunk) < count)
    modifies dst
    ensures err.None? <==> 0 < count <= MAX_CHUNKS
    ensures Upto(FirstChunk(a, chunk), chunk, |src|) <= ChunkHi(LastChunk(b, chunk), chunk, |src|)
    ensures err.None? ==>
      dst[..] == Over(old(dst[..]), src, Upto(FirstChunk(a, chunk), chunk, |src|), ChunkHi(LastChunk(b, chunk), chunk, |src|))
    ensures err.Some? ==> dst[..] == old(dst[..])
  {
    FrontLength(blk, ws, payload, count);
    WordSays(blk, ws, payload, count, 0, 0);
    WordSays(blk, ws, payload, count, 1, 4);
    UptoOrder(FirstChunk(a, chunk), LastChunk(b, chunk) + 1, chunk, |src|);
    var cs, n;
    err, cs, n := ReadHead(blk);
    if err.Some? {
      return;
    }
    var last := LastChunk(b, cs);
    var end := (if last < n - 1 then last else n - 1) + 1;
    err := ReadChunks(z, blk, uncompressed, FirstChunk(a, cs), end, n, cs, dst, verify, src, ws, payload, kept);
  }

  lemma {:induction false} UptoOrder(i: nat, j: nat, cs: nat, len: nat)
    requires i <= j
    ensures Upto(i, cs, len) <= Upto(j, cs, len)
  {
    ChunkOrder(i, j, cs);
  }

  /**
   `read_chunked_range`: the source on every chunk a range touches, the rest of the destination as it
   was; refused, with nothing written, exactly where the block has no chunks or more than a reader takes.
   An empty range is read too: of no chunk where it lies between two, of the one around it elsewhere.
   */
  method ReadChunkedRange(z: Codec, blk: bytes, uncompressed: nat, a: nat, b: nat, dst: array<byte>, verify: bool,
    ghost src: bytes, ghost chunk: nat, ghost sums: bool) returns (err: Option<ReadError>)
    requires IsBlock(z, blk, src, chunk, sums) && (verify ==> sums)
    requires uncompressed == |src| <= dst.Length && a <= b <= |src|
    modifies dst
    ensures err.None? <==> 0 < Chunks(|src|, chunk) <= MAX_CHUNKS
    ensures ChunkLo(FirstChunk(a, chunk), chunk) <= a && b <= ChunkHi(LastChunk(b, chunk), chunk, |src|) <= |src|
    ensures err.None? ==>
      dst[..] == Over(old(dst[..]), src, ChunkLo(FirstChunk(a, chunk), chunk), ChunkHi(LastChunk(b, chunk), chunk, |src|))
    ensures err.Some? ==> dst[..] == old(dst[..])
  {
    Touches(a, b, chunk, |src|);
    ghost var count := Chunks(|src|, chunk);
    ghost var ws, payload, kept := BlockReads(z, blk, src, chunk, sums, verify, count);
    err := ReadFronted(z, blk, uncompressed, a, b, dst, verify, src, chunk, count, ws, payload, kept);
  }
}
