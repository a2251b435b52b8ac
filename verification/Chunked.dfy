/**
 Blocks compressed in chunks that decode alone, and the builder that packs extents into one block.

 The compressor is a pair of functions and the rule that a compressed chunk is kept only where it is
 shorter; all that is taken of them is that decompressing undoes compressing.
 */
module Chunked {
  import opened Bytes
  import opened Wrappers
  import opened HashTable
  import Crc

  const MAX_CHUNKS: nat := 1048576

  /** A compressor and its inverse: the second is told how long its answer is. */
  datatype Codec = Codec(compress: bytes -> bytes, decompress: (bytes, nat) -> Option<bytes>) {
    ghost predicate Inverts() {
      forall x :: decompress(compress(x), |x|) == Some(x)
    }
  }

  function Sum(b: bytes): (v: nat)
    ensures v < U32
  {
    Crc.Crc32(b) as nat
  }

  // ---------------------------------------------------------------- what is written

  /** How many chunks of `cs` bytes a source of `len` takes. */
  function Chunks(len: nat, cs: nat): (n: nat)
    requires cs > 0
    decreases len
  {
    if len == 0 then 0 else if len <= cs then 1 else 1 + Chunks(len - cs, cs)
  }

  /** The quotient, rounded up. */
  lemma {:induction false} ChunksIs(len: nat, cs: nat)
    requires cs > 0
    ensures Chunks(len, cs) == DivCeil(len, cs)
    decreases len
  {
    if len <= cs {
      CeilUnique(len, cs, if len == 0 then 0 else 1);
    } else {
      ChunksIs(len - cs, cs);
      MulStep(cs, DivCeil(len - cs, cs));
      MulStep(cs, DivCeil(len - cs, cs) - 1);
      CeilUnique(len, cs, 1 + DivCeil(len - cs, cs));
    }
  }

  lemma {:induction false} CeilUnique(len: nat, cs: nat, n: nat)
    requires cs > 0 && (n == 0 ==> len == 0) && (n > 0 ==> cs * (n - 1) < len <= cs * n)
    ensures DivCeil(len, cs) == n
  {
    if n > 0 {
      MulStep(cs, n - 1);
      ModUnique(len + cs - 1, cs, n, len - 1 - cs * (n - 1));
    } else {
      ModUnique(cs - 1, cs, 0, cs - 1);
    }
  }

  /** Where chunk `i` starts: `i * cs`. */
  function ChunkLo(i: nat, cs: nat): nat {
    if i == 0 then 0 else ChunkLo(i - 1, cs) + cs
  }

  lemma {:induction false} ChunkLoIs(i: nat, cs: nat)
    ensures ChunkLo(i, cs) == i * cs
  {
    if i > 0 { ChunkLoIs(i - 1, cs); }
  }

  /** Where the first `i` chunks of a source end. */
  function Upto(i: nat, cs: nat, len: nat): (e: nat)
    ensures e <= len
  {
    if ChunkLo(i, cs) < len then ChunkLo(i, cs) else len
  }

  function ChunkHi(i: nat, cs: nat, len: nat): nat { Upto(i + 1, cs, len) }

  lemma {:induction false} ChunkOrder(i: nat, j: nat, cs: nat)
    requires i <= j
    ensures ChunkLo(i, cs) <= ChunkLo(j, cs)
    decreases j
  {
    if i < j { ChunkOrder(i, j - 1, cs); }
  }

  /** The chunks before the last are whole; the last reaches the end. */
  lemma {:induction false} ChunksReach(len: nat, cs: nat, i: nat)
    requires cs > 0 && i < Chunks(len, cs)
    ensures ChunkLo(i, cs) < len
    ensures i + 1 < Chunks(len, cs) ==> ChunkLo(i + 1, cs) < len
    ensures i + 1 == Chunks(len, cs) ==> ChunkLo(i + 1, cs) >= len
    decreases len
  {
    if len > cs {
      if i > 0 {
        ChunksReach(len - cs, cs, i - 1);
      } else {
        ChunksReach(len - cs, cs, 0);
      }
    }
  }

  /** A chunk lies in its source, and only the last may be short. */
  lemma {:induction false} ChunkWithin(i: nat, cs: nat, len: nat)
    requires cs > 0 && i < Chunks(len, cs)
    ensures ChunkLo(i, cs) < ChunkHi(i, cs, len) <= len && ChunkHi(i, cs, len) <= ChunkLo(i, cs) + cs
    ensures i + 1 < Chunks(len, cs) ==> ChunkHi(i, cs, len) == ChunkLo(i + 1, cs)
    ensures i + 1 == Chunks(len, cs) ==> ChunkHi(i, cs, len) == len
  {
    ChunksReach(len, cs, i);
  }

  function ChunkOf(src: bytes, cs: nat, i: nat): (c: bytes)
    requires cs > 0 && i < Chunks(|src|, cs)
    ensures 0 < |c| <= cs
  {
    ChunkWithin(i, cs, |src|);
    src[ChunkLo(i, cs)..ChunkHi(i, cs, |src|)]
  }

  /** A chunk as it is stored: compressed where that is shorter, otherwise verbatim. */
  function Kept(z: Codec, raw: bytes): (b: bytes)
    ensures |b| <= |raw|
  {
    if |z.compress(raw)| < |raw| then z.compress(raw) else raw
  }

  /** The first `k` chunks as stored. */
  function Payload(z: Codec, src: bytes, cs: nat, k: nat): (p: bytes)
    requires cs > 0 && k <= Chunks(|src|, cs)
    decreases k
  {
    if k == 0 then [] else Payload(z, src, cs, k - 1) + Kept(z, ChunkOf(src, cs, k - 1))
  }

  /** Where each chunk starts in the payload, and where the last ends. */
  function Starts(z: Codec, src: bytes, cs: nat): (s: seq<nat>)
    requires cs > 0
    ensures |s| == Chunks(|src|, cs) + 1
  {
    seq(Chunks(|src|, cs) + 1, i requires 0 <= i <= Chunks(|src|, cs) => |Payload(z, src, cs, i)|)
  }

  /** Each stored chunk's checksum, or zeros where none are kept. */
  function Sums(z: Codec, src: bytes, cs: nat, sums: bool): (s: seq<nat>)
    requires cs > 0
    ensures |s| == Chunks(|src|, cs)
  {
    seq(Chunks(|src|, cs), i requires 0 <= i < Chunks(|src|, cs) =>
      if sums then Sum(Kept(z, ChunkOf(src, cs, i))) else 0)
  }

  function Directory(z: Codec, src: bytes, cs: nat, sums: bool): (ws: seq<nat>)
    requires cs > 0
    ensures |ws| == 2 * Chunks(|src|, cs) + 3
  {
    [cs, Chunks(|src|, cs)] + Starts(z, src, cs) + Sums(z, src, cs, sums)
  }

  /** A chunked block: the directory, then the chunks. */
  function ChunkedOf(z: Codec, src: bytes, cs: nat, sums: bool): bytes
    requires cs > 0
  {
    Words(Directory(z, src, cs, sums), 4) + Payload(z, src, cs, Chunks(|src|, cs))
  }

  /** The directory's bytes for `n` chunks. */
  function ChunkHeaderLen(n: nat): nat { 8 + 4 * (n + 1) + 4 * n }

  lemma {:induction false} HeaderLenIs(n: nat)
    ensures WordPlace(4, 2 * n + 3) == ChunkHeaderLen(n)
  {
    WordPlaceIs(4, 2 * n + 3);
  }

  // ---------------------------------------------------------------- the writer

  /** One chunk as it is stored. */
  method KeepChunk(z: Codec, src: bytes, cs: nat, i: nat) returns (kept: bytes)
    requires cs > 0 && i < Chunks(|src|, cs)
    ensures kept == Kept(z, ChunkOf(src, cs, i))
  {
    ChunkWithin(i, cs, |src|);
    ChunkLoIs(i, cs);
    var raw := src[i * cs..ChunkHi(i, cs, |src|)];
    var c := z.compress(raw);
    kept := if |c| < |raw| then c else raw;
  }

  /** The first `i` chunks appended: where each began, and its checksum. */
  ghost predicate Appended(z: Codec, src: bytes, cs: nat, sums: bool, i: nat, payload: bytes, starts: seq<nat>, crcs: seq<nat>)
    requires cs > 0
  {
    && i <= Chunks(|src|, cs) && payload == Payload(z, src, cs, i)
    && starts == Starts(z, src, cs)[..i] && crcs == Sums(z, src, cs, sums)[..i]
  }

  lemma {:induction false} AppendStep(z: Codec, src: bytes, cs: nat, sums: bool, i: nat, payload: bytes, starts: seq<nat>,
    crcs: seq<nat>, kept: bytes, sum: nat)
    requires cs > 0 && i < Chunks(|src|, cs) && Appended(z, src, cs, sums, i, payload, starts, crcs)
    requires kept == Kept(z, ChunkOf(src, cs, i)) && sum == if sums then Sum(kept) else 0
    ensures Appended(z, src, cs, sums, i + 1, payload + kept, starts + [|payload|], crcs + [sum])
  {
    assert Starts(z, src, cs)[..i + 1] == Starts(z, src, cs)[..i] + [|payload|];
    assert Sums(z, src, cs, sums)[..i + 1] == Sums(z, src, cs, sums)[..i] + [sum];
  }

  lemma {:induction false} AppendEnds(z: Codec, src: bytes, cs: nat, sums: bool, payload: bytes, starts: seq<nat>, crcs: seq<nat>)
    requires cs > 0 && Appended(z, src, cs, sums, Chunks(|src|, cs), payload, starts, crcs)
    ensures payload == Payload(z, src, cs, Chunks(|src|, cs))
    ensures starts + [|payload|] == Starts(z, src, cs) && crcs == Sums(z, src, cs, sums)
  {}

  /** The chunks appended one by one, and where each began. */
  method AppendChunks(z: Codec, src: bytes, cs: nat, sums: bool) returns (payload: bytes, starts: seq<nat>, crcs: seq<nat>)
    requires cs > 0
    ensures payload == Payload(z, src, cs, Chunks(|src|, cs))
    ensures starts == Starts(z, src, cs) && crcs == Sums(z, src, cs, sums)
  {
    payload, starts, crcs := [], [], [];
    var i := 0;
    while i < Chunks(|src|, cs)
      invariant Appended(z, src, cs, sums, i, payload, starts, crcs)
      decreases Chunks(|src|, cs) - i
    {
      var kept := KeepChunk(z, src, cs, i);
      var sum := if sums then Sum(kept) else 0;
      AppendStep(z, src, cs, sums, i, payload, starts, crcs, kept, sum);
      starts, crcs := starts + [|payload|], crcs + [sum];
      payload := payload + kept;
      i := i + 1;
    }
    AppendEnds(z, src, cs, sums, payload, starts, crcs);
    starts := starts + [|payload|];
  }

  /** Words from word `k` on replaced. */
  function Patched(ws: seq<nat>, k: nat, vs: seq<nat>): (us: seq<nat>)
    requires k + |vs| <= |ws|
    ensures |us| == |ws|
  {
    ws[..k] + vs + ws[k + |vs|..]
  }

  /** The first `i` of those words replaced. */
  ghost function PatchedTo(ws: seq<nat>, k: nat, vs: seq<nat>, i: nat): (us: seq<nat>)
    requires k + |vs| <= |ws| && i <= |vs|
    ensures |us| == |ws|
  {
    if i == 0 then ws else PatchedTo(ws, k, vs, i - 1)[k + i - 1 := vs[i - 1]]
  }

  lemma {:induction false} PatchedAll(ws: seq<nat>, k: nat, vs: seq<nat>, i: nat)
    requires k + |vs| <= |ws| && i <= |vs|
    ensures PatchedTo(ws, k, vs, i) == Patched(ws, k, vs[..i])
    decreases i
  {
    if i == 0 {
      assert Patched(ws, k, vs[..0]) == ws;
    } else {
      PatchedAll(ws, k, vs, i - 1);
      assert vs[..i] == vs[..i - 1] + [vs[i - 1]];
    }
  }

  lemma {:induction false} PatchedStep(ws: seq<nat>, k: nat, vs: seq<nat>, i: nat)
    requires k + |vs| <= |ws| && i < |vs|
    ensures PatchedTo(ws, k, vs, i + 1) == PatchedTo(ws, k, vs, i)[k + i := vs[i]]
  {}

  /** One word stored over a block's. */
  method PatchWord(out: bytes, ghost us: seq<nat>, j: nat, v: nat, ghost rest: bytes, ghost next: seq<nat>) returns (r: bytes)
    requires out == Words(us, 4) + rest && j < |us| && next == us[j := v]
    ensures r == Words(next, 4) + rest
  {
    WordPatched(us, 4, j, v, rest);
    WordPlaceIs(4, j);
    r := Stored(out, 4 * j, v, 4);
  }

  /** The next of those words stored. */
  method PatchNext(out: bytes, ghost ws: seq<nat>, k: nat, vs: seq<nat>, i: nat, ghost rest: bytes) returns (r: bytes)
    requires k + |vs| <= |ws| && i < |vs| && out == Words(PatchedTo(ws, k, vs, i), 4) + rest
    ensures r == Words(PatchedTo(ws, k, vs, i + 1), 4) + rest
  {
    PatchedStep(ws, k, vs, i);
    r := PatchWord(out, PatchedTo(ws, k, vs, i), k + i, vs[i], rest, PatchedTo(ws, k, vs, i + 1));
  }

  /** Words stored over a block's, from word `k` on. */
  method PatchWords(out: bytes, ghost ws: seq<nat>, k: nat, vs: seq<nat>, ghost rest: bytes) returns (r: bytes)
    requires k + |vs| <= |ws| && out == Words(ws, 4) + rest
    ensures r == Words(PatchedTo(ws, k, vs, |vs|), 4) + rest
  {
    r := out;
    for i := 0 to |vs|
      invariant r == Words(PatchedTo(ws, k, vs, i), 4) + rest
    {
      r := PatchNext(r, ws, k, vs, i, rest);
    }
  }

  lemma {:induction false} DirectoryPatched(chunk: nat, n: nat, starts: seq<nat>, crcs: seq<nat>, blank: seq<nat>)
    requires |starts| == n + 1 && |crcs| == n && blank == [chunk, n] + Nothing(2 * n + 1)
    ensures PatchedTo(PatchedTo(blank, 2, starts, n + 1), n + 3, crcs, n) == [chunk, n] + starts + crcs
  {
    PatchedAll(blank, 2, starts, n + 1);
    PatchedAll(PatchedTo(blank, 2, starts, n + 1), n + 3, crcs, n);
    assert starts[..n + 1] == starts && crcs[..n] == crcs;
  }

  /** The directory patched over a blank header: the starts, then the checksums. */
  method PatchDirectory(blank: bytes, chunk: nat, n: nat, starts: seq<nat>, crcs: seq<nat>, ghost payload: bytes) returns (out: bytes)
    requires blank == Words([chunk, n] + Nothing(2 * n + 1), 4) + payload && |starts| == n + 1 && |crcs| == n
    ensures out == Words([chunk, n] + starts + crcs, 4) + payload
  {
    ghost var ws := [chunk, n] + Nothing(2 * n + 1);
    out := PatchWords(blank, ws, 2, starts, payload);
    out := PatchWords(out, PatchedTo(ws, 2, starts, n + 1), n + 3, crcs, payload);
    DirectoryPatched(chunk, n, starts, crcs, ws);
  }

  /** `write_chunked_sz`: the header left blank, the chunks after it, and the directory patched in. */
  method WriteChunked(z: Codec, src: bytes, chunk: nat, sums: bool) returns (out: bytes)
    requires chunk > 0
    ensures out == ChunkedOf(z, src, chunk, sums)
  {
    var n := Chunks(|src|, chunk);
    var payload, starts, crcs := AppendChunks(z, src, chunk, sums);
    BlankIs(chunk, n, 2 * n + 1);
    out := PatchDirectory(LeBytes(chunk, 4) + LeBytes(n, 4) + seq(4 * (2 * n + 1), i => 0) + payload, chunk, n, starts, crcs, payload);
  }

  /** Words not written yet. */
  function Nothing(k: nat): (z: seq<nat>)
    ensures |z| == k
  {
    seq(k, i => 0)
  }

  lemma {:induction false} WordsJoin(a: seq<nat>, b: seq<nat>, n: nat)
    ensures Words(a + b, n) == Words(a, n) + Words(b, n)
    decreases |b|
  {
    if b == [] {
      assert a + b == a;
    } else {
      var front, last := b[..|b| - 1], b[|b| - 1];
      ghost var ab := a + b;
      assert ab[..|ab| - 1] == a + front && ab[|ab| - 1] == last;
      WordsJoin(a, front, n);
      Reassociate(Words(a, n), Words(front, n), LeBytes(last, n));
    }
  }

  lemma {:induction false} NothingIs(k: nat)
    ensures Words(Nothing(k), 4) == seq(4 * k, i => 0)
  {
    if k > 0 {
      NothingIs(k - 1);
      ZeroWord(4);
      assert Nothing(k)[..k - 1] == Nothing(k - 1);
      assert seq(4 * k, i => 0) == seq(4 * (k - 1), i => 0) + seq(4, i => 0);
    }
  }

  lemma {:induction false} TwoWords(a: nat, b: nat, n: nat)
    ensures Words([a, b], n) == LeBytes(a, n) + LeBytes(b, n)
  {
    assert [a, b][..1] == [a] && [a][..0] == [];
    assert Words([a], n) == [] + LeBytes(a, n) == LeBytes(a, n);
  }

  lemma {:induction false} BlankIs(chunk: nat, n: nat, k: nat)
    ensures Words([chunk, n] + Nothing(k), 4) == LeBytes(chunk, 4) + LeBytes(n, 4) + seq(4 * k, i => 0)
  {
    WordsJoin([chunk, n], Nothing(k), 4);
    TwoWords(chunk, n, 4);
    NothingIs(k);
  }
}
