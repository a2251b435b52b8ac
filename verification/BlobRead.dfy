/** An extent's bytes, however its block is stored: in place, in chunks, or compressed as one. */
module BlobRead {
  import opened Bytes
  import opened Wrappers
  import opened Runs
  import opened Chunked
  import opened ChunkedRead
  import opened BlobVerify
  import opened BlobPlan

  /** A block that is not plain, and its decoded bytes. */
  ghost predicate DecodesTo(z: Codec, loc: Loc, stored: bytes, plain: bytes, checks: bool) {
    && |plain| == loc.uncompressed
    && if loc.chunked then
         exists cs, sums :: IsBlock(z, stored, plain, cs, sums) && (checks ==> sums) && 0 < Chunks(|plain|, cs) <= MAX_CHUNKS
       else
         z.decompress(stored, loc.uncompressed) == Some(plain)
  }

  /** Each block's decoded bytes: its stored ones where it is plain. */
  ghost predicate Contents(z: Codec, t: Table, data: seq<bytes>, content: seq<bytes>, checks: bool)
    requires Source(t, data)
  {
    && |content| == |data|
    && (forall id :: 0 <= id < |data| && t.locs[id].IsPlain() ==> content[id] == data[id])
    && forall id {:trigger DecodesTo(z, t.locs[id], data[id], content[id], checks)} :: 0 <= id < |data| && !t.locs[id].IsPlain() ==>
      DecodesTo(z, t.locs[id], data[id], content[id], checks)
  }

  /** The span a chunked read restores holds the range asked for. */
  lemma {:induction false} OverHolds(d: bytes, src: bytes, lo: nat, hi: nat, a: nat, b: nat)
    requires lo <= a <= b <= hi <= |src| <= |d|
    ensures Over(d, src, lo, hi)[a..b] == src[a..b]
  {}

  /** A range of a chunked block, decoded into a buffer of its own. */
  method ReadChunked(z: Codec, raw: bytes, un: nat, a: nat, b: nat, checks: bool, ghost plain: bytes) returns (run: Option<bytes>)
    requires exists cs, sums :: IsBlock(z, raw, plain, cs, sums) && (checks ==> sums) && 0 < Chunks(|plain|, cs) <= MAX_CHUNKS
    requires un == |plain| && a <= b <= un
    ensures run == Some(plain[a..b])
  {
    ghost var cs, sums :| IsBlock(z, raw, plain, cs, sums) && (checks ==> sums) && 0 < Chunks(|plain|, cs) <= MAX_CHUNKS;
    var dec := new byte[un](_ => 0);
    ghost var was := dec[..];
    var err := ReadChunkedRange(z, raw, un, a, b, dec, checks, plain, cs, sums);
    if err.Some? {
      return None;
    }
    OverHolds(was, plain, ChunkLo(FirstChunk(a, cs), cs), ChunkHi(LastChunk(b, cs), cs, |plain|), a, b);
    run := Some(dec[..][a..b]);
  }

  /** Every block matches the table, and what has been checked was. */
  ghost predicate Ready(reader: Reader, data: seq<bytes>)
    reads reader
  {
    Source(reader.t, data) && Sound(reader.t, data, reader.verified) && WholeTable(reader.t) && AllGood(reader.t, data)
  }

  /** Whether a read of an extent passes its check, over blocks that match: always, but for an empty one that is partial. */
  predicate Passes(t: Table, checks: bool, e: Ext)
    requires e.block < |t.locs|
  {
    !(checks && Partial(t.locs[e.block], e))
  }

  /** A range of a plain block. */
  method PlainExtent(reader: Reader, e: Ext, data: seq<bytes>) returns (run: Option<bytes>)
    requires Ready(reader, data)
    requires !e.IsInline() && e.block < |data| && e.off + e.len <= |data[e.block]| && reader.t.locs[e.block].IsPlain()
    modifies reader`verified
    ensures Ready(reader, data)
    ensures run == if Passes(reader.t, reader.checks, e) then Some(data[e.block][e.off..e.off + e.len]) else None
  {
    var r, fetched := ReadPlain(reader, e, data);
    run := if r.Success? then Some(r.value) else None;
  }

  /** A range of a block that is not plain. */
  method CompressedExtent(reader: Reader, z: Codec, loc: Loc, id: nat, a: nat, b: nat, data: seq<bytes>, ghost plain: bytes)
    returns (run: Option<bytes>)
    requires Ready(reader, data) && id < |data| && loc == reader.t.locs[id]
    requires DecodesTo(z, loc, data[id], plain, reader.checks) && a <= b <= |plain|
    modifies reader`verified
    ensures Ready(reader, data) && run == Some(plain[a..b])
  {
    if b > loc.uncompressed {
      return None;
    }
    if loc.chunked {
      run := ReadChunked(z, data[id], loc.uncompressed, a, b, reader.checks, plain);
    } else {
      run := ReadStream(reader, z, id, a, b, data, plain);
    }
  }

  /**
   `with_extent` over blocks that match: the extent's own bytes, whatever form its block takes, and a
   refusal exactly where checks are on and the extent is empty and partial.
   */
  method WithExtent(reader: Reader, z: Codec, e: Ext, data: seq<bytes>, ghost content: seq<bytes>) returns (run: Option<bytes>)
    requires Ready(reader, data) && Contents(z, reader.t, data, content, reader.checks)
    requires !e.IsInline() && e.block < |data| && e.off + e.len <= |content[e.block]|
    modifies reader`verified
    ensures Ready(reader, data)
    ensures run == if Passes(reader.t, reader.checks, e) then Some(content[e.block][e.off..e.off + e.len]) else None
  {
    var loc := reader.t.locs[e.block];
    if loc.IsPlain() {
      run := PlainExtent(reader, e, data);
    } else {
      assert DecodesTo(z, loc, data[e.block], content[e.block], reader.checks);
      run := CompressedExtent(reader, z, loc, e.block, e.off, e.off + e.len, data, content[e.block]);
    }
  }

  /** A range of a block compressed as one, checked whole. */
  method ReadStream(reader: Reader, z: Codec, id: nat, a: nat, b: nat, data: seq<bytes>, ghost plain: bytes) returns (run: Option<bytes>)
    requires Ready(reader, data)
    requires id < |data| && z.decompress(data[id], reader.t.locs[id].uncompressed) == Some(plain) && a <= b <= |plain|
    modifies reader`verified
    ensures Ready(reader, data)
    ensures run == Some(plain[a..b])
  {
    var raw := data[id];
    WholeBlockPasses(reader.t, data, id, reader.verified);
    assert raw[0..0 + |raw|] == raw;
    var ok := reader.Verify(Read(id, raw, 0, 0, |raw|), data);
    if !ok {
      return None;
    }
    var out := z.decompress(raw, reader.t.locs[id].uncompressed);
    run := if out.Some? then Some(out.value[a..b]) else None;
  }
}
