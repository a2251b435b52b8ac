/** The block table as a writer fills it: what the checks and reads assume of a table holds of every one it makes. */
module BlobTable {
  import opened Bytes
  import opened Wrappers
  import opened BlobVerify
  import Chunked

  // ---------------------------------------------------------------- a row

  /** A row as far as it is filled: the checksums of the first `n` chunks. */
  ghost predicate RowTo(row: seq<nat>, blk: bytes, n: nat) {
    |row| == MAX_CHUNK_CRCS && n <= MAX_CHUNK_CRCS
      && forall j :: 0 <= j < n && j * CHUNK < |blk| ==> row[j] == Chunked.Sum(ChunkAt(blk, j))
  }

  /** `chunk_crcs`: a checksum a chunk, exactly where the block has at least one and no more than a row holds. */
  method ChunkCrcs(blk: bytes) returns (row: Option<seq<nat>>)
    ensures row.Some? <==> 0 < |blk| <= MAX_CHUNK_CRCS * CHUNK
    ensures row.Some? ==> RowTo(row.value, blk, MAX_CHUNK_CRCS)
  {
    var n := (|blk| + CHUNK - 1) / CHUNK;
    if n == 0 || n > MAX_CHUNK_CRCS {
      return None;
    }
    var out: seq<nat> := seq(MAX_CHUNK_CRCS, j => 0);
    var i := 0;
    while i < n
      invariant i <= n && RowTo(out, blk, i)
    {
      out := out[i := Chunked.Sum(blk[i * CHUNK..Min((i + 1) * CHUNK, |blk|)])];
      i := i + 1;
    }
    row := Some(out);
  }

  // ---------------------------------------------------------------- a table

  /** Everything the reads assume of a table and the stored blocks behind it. */
  ghost predicate Trusted(t: Table, data: seq<bytes>) {
    Source(t, data) && WholeTable(t) && AllGood(t, data)
  }

  /** One block's entry and row match its bytes. */
  ghost predicate Fresh(loc: Loc, row: seq<nat>, blk: bytes) {
    && loc.stored == |blk| && loc.crc == Chunked.Sum(blk) && |row| == MAX_CHUNK_CRCS
    && (loc.chunkCrc ==> |blk| <= MAX_CHUNK_CRCS * CHUNK && RowTo(row, blk, MAX_CHUNK_CRCS))
  }

  lemma {:induction false} OneMoreBlock(t: Table, data: seq<bytes>, loc: Loc, row: seq<nat>, blk: bytes)
    requires Trusted(t, data) && Fresh(loc, row, blk)
    ensures Trusted(Table(t.locs + [loc], t.rows + [row]), data + [blk])
  {
    var u, d := Table(t.locs + [loc], t.rows + [row]), data + [blk];
    forall id | 0 <= id < |d| ensures BlockMatches(u, d[id], id) {
      if id < |data| { assert BlockMatches(t, data[id], id); }
    }
    forall id, j | 0 <= id < |d| && u.locs[id].chunkCrc && 0 <= j <= (|d[id]| - 1) / CHUNK ensures ChunkMatches(u, d[id], id, j) {
      if id < |data| { assert ChunkMatches(t, data[id], id, j); }
    }
  }

  /** A block as it is stored: where, its bytes, its length before compression and whether it is cut into chunks. */
  datatype Block = Block(off: nat, stored: bytes, uncompressed: nat, chunked: bool)

  /** The entry of a block: its fields, and chunk checksums exactly where it is plain and a row can hold them. */
  predicate Enters(loc: Loc, b: Block) {
    && loc.off == b.off && loc.stored == |b.stored| && loc.uncompressed == b.uncompressed && loc.chunked == b.chunked
    && (loc.chunkCrc <==> loc.IsPlain() && 0 < |b.stored| <= MAX_CHUNK_CRCS * CHUNK)
  }

  /** A block closed: its entry and row are pushed, with chunk checksums where it is plain and has few enough chunks. */
  method PushBlock(t: Table, b: Block, ghost data: seq<bytes>) returns (u: Table)
    requires Trusted(t, data)
    ensures Trusted(u, data + [b.stored])
    ensures |u.locs| == |t.locs| + 1 && u.locs[..|t.locs|] == t.locs && Enters(u.locs[|t.locs|], b)
  {
    var row := None;
    if |b.stored| == b.uncompressed {
      row := ChunkCrcs(b.stored);
    }
    var loc := Loc(b.off, |b.stored|, b.uncompressed, Chunked.Sum(b.stored), b.chunked, row.Some?);
    var words := if row.Some? then row.value else seq(MAX_CHUNK_CRCS, j => 0);
    OneMoreBlock(t, data, loc, words, b.stored);
    u := Table(t.locs + [loc], t.rows + [words]);
  }

  function StoredBytes(blocks: seq<Block>): (data: seq<bytes>)
    ensures |data| == |blocks|
  {
    seq(|blocks|, i requires 0 <= i < |blocks| => blocks[i].stored)
  }

  /** Every table a writer makes is one the checks and the reads can assume. */
  method MakeTable(blocks: seq<Block>) returns (t: Table)
    ensures Trusted(t, StoredBytes(blocks))
    ensures |t.locs| == |blocks| && forall i :: 0 <= i < |blocks| ==> Enters(t.locs[i], blocks[i])
  {
    t := Table([], []);
    var i := 0;
    while i < |blocks|
      invariant i <= |blocks| && Trusted(t, StoredBytes(blocks[..i]))
      invariant |t.locs| == i && forall j :: 0 <= j < i ==> Enters(t.locs[j], blocks[j])
    {
      assert StoredBytes(blocks[..i + 1]) == StoredBytes(blocks[..i]) + [blocks[i].stored];
      ghost var locs := t.locs;
      t := PushBlock(t, blocks[i], StoredBytes(blocks[..i]));
      assert forall j :: 0 <= j < i ==> t.locs[j] == t.locs[..i][j] == locs[j];
      i := i + 1;
    }
    assert blocks[..i] == blocks;
  }
}
