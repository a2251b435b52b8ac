/**
 What a reader has checked: a bit a chunk, set only after its bytes matched.

 `data` is the source, immutable: each block's stored bytes.
 */
module BlobVerify {
  import opened Bytes
  import opened Wrappers
  import Chunked

  const CHUNK: nat := 4096
  const MAX_CHUNK_CRCS: nat := 16

  /** A block's place in the file and how it is stored. */
  datatype Loc = Loc(off: nat, stored: nat, uncompressed: nat, crc: nat, chunked: bool, chunkCrc: bool) {
    /** Stored verbatim, because compressing it did not pay. */
    predicate IsPlain() { stored == uncompressed }
  }

  /** The block table: an entry a block, and a row of chunk checksums a block for as many rows as the section holds. */
  datatype Table = Table(locs: seq<Loc>, rows: seq<seq<nat>>)

  /** What a row says of a chunk; `None` past the rows. */
  function ChunkCrc(t: Table, id: nat, j: nat): Option<nat> {
    if id >= |t.locs| || j >= MAX_CHUNK_CRCS || id >= |t.rows| || j >= |t.rows[id]| then None else Some(t.rows[id][j])
  }

  // ---------------------------------------------------------------- the bitmap

  function SlotOf(id: nat, j: nat): nat { id * MAX_CHUNK_CRCS + j }

  /** A bit past the bitmap is never remembered. */
  predicate IsVerified(bits: seq<bool>, id: nat, j: nat) {
    SlotOf(id, j) < |bits| && bits[SlotOf(id, j)]
  }

  function SetVerified(bits: seq<bool>, id: nat, j: nat): (b: seq<bool>)
    ensures |b| == |bits|
  {
    if SlotOf(id, j) < |bits| then bits[SlotOf(id, j) := true] else bits
  }

  /** One bit a chunk: no two share one. */
  lemma {:induction false} SlotsApart(id: nat, j: nat, id': nat, j': nat)
    requires j < MAX_CHUNK_CRCS && j' < MAX_CHUNK_CRCS && SlotOf(id, j) == SlotOf(id', j')
    ensures id == id' && j == j'
  {}

  // ---------------------------------------------------------------- the check

  /** The outcome of a check: whether it passed, and the bits after it. */
  datatype Checked = Checked(ok: bool, bits: seq<bool>)

  /** The fallback: the whole block against its own checksum. */
  function Whole(loc: Loc, id: nat, raw: bytes, base: nat, bits: seq<bool>): Checked {
    if base != 0 || |raw| != loc.stored then Checked(false, bits)
    else if IsVerified(bits, id, 0) then Checked(true, bits)
    else if Chunked.Sum(raw) != loc.crc then Checked(false, bits)
    else Checked(true, SetVerified(bits, id, 0))
  }

  /** The chunks from `j` to `last`, each skipped where its bit is set. */
  function ChunksFrom(t: Table, loc: Loc, id: nat, raw: bytes, base: nat, j: nat, last: nat, bits: seq<bool>): Checked
    decreases last + 1 - j
  {
    if j > last then Checked(true, bits)
    else
      var a, b, want := j * CHUNK, Min((j + 1) * CHUNK, base + |raw|), ChunkCrc(t, id, j);
      if want.None? || a >= b || a < base then Whole(loc, id, raw, base, bits)
      else if IsVerified(bits, id, j) then ChunksFrom(t, loc, id, raw, base, j + 1, last, bits)
      else if Chunked.Sum(raw[a - base..b - base]) != want.value then Checked(false, bits)
      else ChunksFrom(t, loc, id, raw, base, j + 1, last, SetVerified(bits, id, j))
  }

  /** A check of block bytes `lo..hi`, `raw` holding the block from `base` on. */
  function Check(t: Table, loc: Loc, id: nat, raw: bytes, base: nat, lo: nat, hi: nat, bits: seq<bool>): Checked {
    if !loc.chunkCrc || hi > base + |raw| || lo < base || lo >= hi then Whole(loc, id, raw, base, bits)
    else ChunksFrom(t, loc, id, raw, base, lo / CHUNK, (hi - 1) / CHUNK, bits)
  }

  // ---------------------------------------------------------------- what a bit means

  /** Chunk `j` of a block. */
  function ChunkAt(blk: bytes, j: nat): bytes
    requires j * CHUNK <= |blk|
  {
    blk[j * CHUNK..Min((j + 1) * CHUNK, |blk|)]
  }

  ghost predicate ChunkMatches(t: Table, blk: bytes, id: nat, j: nat) {
    && id < |t.locs| && t.locs[id].chunkCrc
    && j * CHUNK < |blk| && ChunkCrc(t, id, j) == Some(Chunked.Sum(ChunkAt(blk, j)))
  }

  ghost predicate BlockMatches(t: Table, blk: bytes, id: nat) {
    id < |t.locs| && Chunked.Sum(blk) == t.locs[id].crc
  }

  /** Chunk `j` is covered by a checksum that matched: its own, or the block's. */
  ghost predicate Vouched(t: Table, blk: bytes, id: nat, j: nat) {
    ChunkMatches(t, blk, id, j) || BlockMatches(t, blk, id)
  }

  /** The source is the table's. */
  ghost predicate Source(t: Table, data: seq<bytes>) {
    |data| == |t.locs| && forall id :: 0 <= id < |data| ==> |data[id]| == t.locs[id].stored
  }

  /** A table with every row, whose checksummed blocks have no more chunks than a row holds. */
  ghost predicate WholeTable(t: Table) {
    && |t.rows| == |t.locs|
    && (forall id :: 0 <= id < |t.rows| ==> |t.rows[id]| == MAX_CHUNK_CRCS)
    && (forall id :: 0 <= id < |t.locs| && t.locs[id].chunkCrc ==> t.locs[id].stored <= MAX_CHUNK_CRCS * CHUNK)
  }

  /** A bit is set only where a checksum over its chunk matched. */
  ghost predicate Sound(t: Table, data: seq<bytes>, bits: seq<bool>)
    requires Source(t, data)
  {
    forall id, j {:trigger IsVerified(bits, id, j)} :: 0 <= id < |data| && 0 <= j < MAX_CHUNK_CRCS && IsVerified(bits, id, j) ==>
      if t.locs[id].chunkCrc then Vouched(t, data[id], id, j) else BlockMatches(t, data[id], id)
  }

  /** What a read brings: a block's bytes from `base` to its end, or to a chunk's. */
  ghost predicate Fetched(loc: Loc, blk: bytes, raw: bytes, base: nat) {
    && base + |raw| <= |blk| == loc.stored && raw == blk[base..base + |raw|]
    && (base + |raw| == |blk| || (base + |raw|) % CHUNK == 0)
  }

  // ---------------------------------------------------------------- the bits stay sound

  lemma {:induction false} SetSound(t: Table, data: seq<bytes>, bits: seq<bool>, id: nat, j: nat)
    requires Source(t, data) && Sound(t, data, bits) && id < |data| && j < MAX_CHUNK_CRCS
    requires if t.locs[id].chunkCrc then Vouched(t, data[id], id, j) else BlockMatches(t, data[id], id)
    ensures Sound(t, data, SetVerified(bits, id, j))
  {
    var after := SetVerified(bits, id, j);
    forall id', j' | 0 <= id' < |data| && 0 <= j' < MAX_CHUNK_CRCS && IsVerified(after, id', j')
      ensures if t.locs[id'].chunkCrc then Vouched(t, data[id'], id', j') else BlockMatches(t, data[id'], id')
    {
      if SlotOf(id', j') == SlotOf(id, j) {
        SlotsApart(id, j, id', j');
      } else {
        assert IsVerified(bits, id', j');
      }
    }
  }

  lemma {:induction false} WholeSound(t: Table, data: seq<bytes>, id: nat, raw: bytes, base: nat, bits: seq<bool>)
    requires Source(t, data) && Sound(t, data, bits) && id < |data| && Fetched(t.locs[id], data[id], raw, base)
    ensures Sound(t, data, Whole(t.locs[id], id, raw, base, bits).bits)
  {
    var loc := t.locs[id];
    if base == 0 && |raw| == loc.stored && !IsVerified(bits, id, 0) && Chunked.Sum(raw) == loc.crc {
      assert raw == data[id];
      SetSound(t, data, bits, id, 0);
    }
  }

  /** The bytes compared for chunk `j` are that chunk of the source. */
  lemma {:induction false} ComparesChunk(loc: Loc, blk: bytes, raw: bytes, base: nat, j: nat)
    requires Fetched(loc, blk, raw, base) && base <= j * CHUNK < base + |raw|
    ensures raw[j * CHUNK - base..Min((j + 1) * CHUNK, base + |raw|) - base] == ChunkAt(blk, j)
  {
    assert (j + 1) * CHUNK == j * CHUNK + CHUNK;
    var a, b := j * CHUNK, Min((j + 1) * CHUNK, base + |raw|);
    if base + |raw| < |blk| { WholeChunks(base + |raw|, j); }
    assert b == Min((j + 1) * CHUNK, |blk|);
    assert blk[base..base + |raw|][a - base..b - base] == blk[a..b];
  }

  lemma {:induction false} WholeChunks(end: nat, j: nat)
    requires end % CHUNK == 0 && j * CHUNK < end
    ensures (j + 1) * CHUNK <= end
  {}

  /** A chunk whose bytes matched may have its bit. */
  lemma {:induction false} MatchSound(t: Table, data: seq<bytes>, id: nat, raw: bytes, base: nat, j: nat, bits: seq<bool>)
    requires Source(t, data) && Sound(t, data, bits) && id < |data| && t.locs[id].chunkCrc
    requires Fetched(t.locs[id], data[id], raw, base) && base <= j * CHUNK < base + |raw|
    requires ChunkCrc(t, id, j) == Some(Chunked.Sum(raw[j * CHUNK - base..Min((j + 1) * CHUNK, base + |raw|) - base]))
    ensures Sound(t, data, SetVerified(bits, id, j))
  {
    ComparesChunk(t.locs[id], data[id], raw, base, j);
    assert ChunkMatches(t, data[id], id, j);
    SetSound(t, data, bits, id, j);
  }

  /** A check keeps every bit sound, whatever it is asked and however it ends. */
  lemma {:induction false} ChunksSound(t: Table, data: seq<bytes>, id: nat, raw: bytes, base: nat, j: nat, last: nat, bits: seq<bool>)
    requires Source(t, data) && Sound(t, data, bits) && id < |data| && t.locs[id].chunkCrc
    requires Fetched(t.locs[id], data[id], raw, base)
    ensures Sound(t, data, ChunksFrom(t, t.locs[id], id, raw, base, j, last, bits).bits)
    decreases last + 1 - j
  {
    if j <= last {
      var a, b, want := j * CHUNK, Min((j + 1) * CHUNK, base + |raw|), ChunkCrc(t, id, j);
      if want.None? || a >= b || a < base {
        WholeSound(t, data, id, raw, base, bits);
      } else if IsVerified(bits, id, j) {
        ChunksSound(t, data, id, raw, base, j + 1, last, bits);
      } else if Chunked.Sum(raw[a - base..b - base]) == want.value {
        MatchSound(t, data, id, raw, base, j, bits);
        ChunksSound(t, data, id, raw, base, j + 1, last, SetVerified(bits, id, j));
      }
    }
  }

  lemma {:induction false} CheckSound(t: Table, data: seq<bytes>, id: nat, raw: bytes, base: nat, lo: nat, hi: nat, bits: seq<bool>)
    requires Source(t, data) && Sound(t, data, bits) && id < |data| && Fetched(t.locs[id], data[id], raw, base)
    ensures Sound(t, data, Check(t, t.locs[id], id, raw, base, lo, hi, bits).bits)
  {
    if !t.locs[id].chunkCrc || hi > base + |raw| || lo < base || lo >= hi {
      WholeSound(t, data, id, raw, base, bits);
    } else {
      ChunksSound(t, data, id, raw, base, lo / CHUNK, (hi - 1) / CHUNK, bits);
    }
  }

  // ---------------------------------------------------------------- what passing means

  /** Every chunk a range touches is vouched for. */
  ghost predicate Covered(t: Table, blk: bytes, id: nat, lo: nat, hi: nat)
    requires lo < hi
  {
    forall j :: lo / CHUNK <= j <= (hi - 1) / CHUNK ==> Vouched(t, blk, id, j)
  }

  lemma {:induction false} ChunksCover(t: Table, data: seq<bytes>, id: nat, raw: bytes, base: nat, j: nat, last: nat, bits: seq<bool>, k: nat)
    requires Source(t, data) && Sound(t, data, bits) && WholeTable(t) && id < |data| && t.locs[id].chunkCrc
    requires Fetched(t.locs[id], data[id], raw, base) && base <= j * CHUNK && last * CHUNK < base + |raw|
    requires ChunksFrom(t, t.locs[id], id, raw, base, j, last, bits).ok && j <= k <= last
    ensures Vouched(t, data[id], id, k)
    decreases last + 1 - j
  {
    var a, b, want := j * CHUNK, Min((j + 1) * CHUNK, base + |raw|), ChunkCrc(t, id, j);
    assert j < MAX_CHUNK_CRCS && want.Some? && a < b;
    if IsVerified(bits, id, j) {
      if j < k { ChunksCover(t, data, id, raw, base, j + 1, last, bits, k); }
    } else {
      ComparesChunk(t.locs[id], data[id], raw, base, j);
      SetSound(t, data, bits, id, j);
      if j < k { ChunksCover(t, data, id, raw, base, j + 1, last, SetVerified(bits, id, j), k); }
    }
  }

  lemma {:induction false} FirstAndLast(base: nat, lo: nat, hi: nat, end: nat)
    requires base % CHUNK == 0 && base <= lo < hi <= end
    ensures base <= lo / CHUNK * CHUNK && (hi - 1) / CHUNK * CHUNK < end
  {}

  /**
   Over an immutable source and a whole table, whatever has been read before: a non-empty range inside
   its block that passes is covered by checksums that matched.
   */
  lemma {:induction false} PassedIsCovered(t: Table, data: seq<bytes>, id: nat, raw: bytes, base: nat, lo: nat, hi: nat, bits: seq<bool>)
    requires Source(t, data) && Sound(t, data, bits) && WholeTable(t) && id < |data|
    requires Fetched(t.locs[id], data[id], raw, base) && base % CHUNK == 0 && base <= lo < hi <= base + |raw|
    ensures Check(t, t.locs[id], id, raw, base, lo, hi, bits).ok ==> Covered(t, data[id], id, lo, hi)
  {
    FirstAndLast(base, lo, hi, base + |raw|);
    if Check(t, t.locs[id], id, raw, base, lo, hi, bits).ok {
      if t.locs[id].chunkCrc {
        forall k | lo / CHUNK <= k <= (hi - 1) / CHUNK ensures Vouched(t, data[id], id, k) {
          ChunksCover(t, data, id, raw, base, lo / CHUNK, (hi - 1) / CHUNK, bits, k);
        }
      } else {
        assert raw == data[id];
      }
    }
  }

  lemma {:induction false} ChunksPass(t: Table, data: seq<bytes>, id: nat, raw: bytes, base: nat, j: nat, last: nat, bits: seq<bool>)
    requires Source(t, data) && WholeTable(t) && id < |data| && t.locs[id].chunkCrc
    requires Fetched(t.locs[id], data[id], raw, base) && base <= j * CHUNK && last * CHUNK < base + |raw|
    requires forall k :: j <= k <= last ==> ChunkMatches(t, data[id], id, k)
    ensures ChunksFrom(t, t.locs[id], id, raw, base, j, last, bits).ok
    decreases last + 1 - j
  {
    if j <= last {
      assert ChunkMatches(t, data[id], id, j);
      ComparesChunk(t.locs[id], data[id], raw, base, j);
      ChunksPass(t, data, id, raw, base, j + 1, last, bits);
      ChunksPass(t, data, id, raw, base, j + 1, last, SetVerified(bits, id, j));
    }
  }

  /** Good bytes are never refused, whatever has been read before. */
  lemma {:induction false} MatchedPasses(t: Table, data: seq<bytes>, id: nat, raw: bytes, base: nat, lo: nat, hi: nat, bits: seq<bool>)
    requires Source(t, data) && WholeTable(t) && id < |data|
    requires Fetched(t.locs[id], data[id], raw, base) && base % CHUNK == 0 && base <= lo < hi <= base + |raw|
    requires if t.locs[id].chunkCrc then forall k :: lo / CHUNK <= k <= (hi - 1) / CHUNK ==> ChunkMatches(t, data[id], id, k)
             else base == 0 && |raw| == t.locs[id].stored && BlockMatches(t, data[id], id)
    ensures Check(t, t.locs[id], id, raw, base, lo, hi, bits).ok
  {
    if t.locs[id].chunkCrc {
      FirstAndLast(base, lo, hi, base + |raw|);
      ChunksPass(t, data, id, raw, base, lo / CHUNK, (hi - 1) / CHUNK, bits);
    } else {
      assert raw == data[id];
    }
  }

  /** Every block's bytes match what the table says of them. */
  ghost predicate AllGood(t: Table, data: seq<bytes>)
    requires Source(t, data)
  {
    && (forall id :: 0 <= id < |data| ==> BlockMatches(t, data[id], id))
    && (forall id, j :: 0 <= id < |data| && t.locs[id].chunkCrc && 0 <= j <= (|data[id]| - 1) / CHUNK ==>
          ChunkMatches(t, data[id], id, j))
  }

  lemma {:induction false} WholeBlockPasses(t: Table, data: seq<bytes>, id: nat, bits: seq<bool>)
    requires Source(t, data) && WholeTable(t) && AllGood(t, data) && id < |data|
    ensures Check(t, t.locs[id], id, data[id], 0, 0, |data[id]|, bits).ok
  {
    var raw := data[id];
    assert raw[0..0 + |raw|] == raw;
    if raw != [] { MatchedPasses(t, data, id, raw, 0, 0, |raw|, bits); }
  }

  // ---------------------------------------------------------------- a refusal stands

  /** Every bit that was set is set. */
  ghost predicate Grown(bits: seq<bool>, after: seq<bool>) {
    |after| == |bits| && forall k :: 0 <= k < |bits| && bits[k] ==> after[k]
  }

  lemma {:induction false} ChunksGrow(t: Table, loc: Loc, id: nat, raw: bytes, base: nat, j: nat, last: nat, bits: seq<bool>)
    ensures Grown(bits, ChunksFrom(t, loc, id, raw, base, j, last, bits).bits)
    decreases last + 1 - j
  {
    if j <= last {
      ChunksGrow(t, loc, id, raw, base, j + 1, last, bits);
      ChunksGrow(t, loc, id, raw, base, j + 1, last, SetVerified(bits, id, j));
    }
  }

  lemma {:induction false} ChunksRefuse(t: Table, loc: Loc, id: nat, raw: bytes, base: nat, j: nat, last: nat, bits: seq<bool>)
    requires !ChunksFrom(t, loc, id, raw, base, j, last, bits).ok
    ensures !ChunksFrom(t, loc, id, raw, base, j, last, ChunksFrom(t, loc, id, raw, base, j, last, bits).bits).ok
    decreases last + 1 - j
  {
    var a, b, want := j * CHUNK, Min((j + 1) * CHUNK, base + |raw|), ChunkCrc(t, id, j);
    if want.Some? && a < b && a >= base {
      if IsVerified(bits, id, j) {
        ChunksGrow(t, loc, id, raw, base, j + 1, last, bits);
        ChunksRefuse(t, loc, id, raw, base, j + 1, last, bits);
      } else if Chunked.Sum(raw[a - base..b - base]) == want.value {
        SetStays(t, loc, id, raw, base, j, last, bits);
        ChunksRefuse(t, loc, id, raw, base, j + 1, last, SetVerified(bits, id, j));
      }
    }
  }

  lemma {:induction false} SetStays(t: Table, loc: Loc, id: nat, raw: bytes, base: nat, j: nat, last: nat, bits: seq<bool>)
    ensures var after := ChunksFrom(t, loc, id, raw, base, j + 1, last, SetVerified(bits, id, j)).bits;
      SetVerified(after, id, j) == after
  {
    ChunksGrow(t, loc, id, raw, base, j + 1, last, SetVerified(bits, id, j));
  }

  /** A range refused once is refused again with the bits it left: a failed check makes no later read of those bytes succeed. */
  lemma {:induction false} RefusedAgain(t: Table, loc: Loc, id: nat, raw: bytes, base: nat, lo: nat, hi: nat, bits: seq<bool>)
    requires !Check(t, loc, id, raw, base, lo, hi, bits).ok
    ensures !Check(t, loc, id, raw, base, lo, hi, Check(t, loc, id, raw, base, lo, hi, bits).bits).ok
  {
    if loc.chunkCrc && hi <= base + |raw| && base <= lo < hi {
      ChunksRefuse(t, loc, id, raw, base, lo / CHUNK, (hi - 1) / CHUNK, bits);
    }
  }

  // ---------------------------------------------------------------- the reader

  /** One read: which block, what was fetched of it, and the range asked for. */
  datatype Read = Read(id: nat, raw: bytes, base: nat, lo: nat, hi: nat)

  /** A read a caller makes: of the source's bytes, from a chunk's start or the block's end. */
  ghost predicate Makes(t: Table, data: seq<bytes>, r: Read)
    requires Source(t, data)
  {
    r.id < |data| && Fetched(t.locs[r.id], data[r.id], r.raw, r.base)
      && (r.base % CHUNK == 0 || r.base == |data[r.id]|)
  }

  /** A non-empty range inside what was fetched. */
  predicate InBlock(r: Read) { r.base <= r.lo < r.hi <= r.base + |r.raw| }

  /** A read of a range inside its block that passed is covered by checksums that matched. */
  ghost predicate Honest(t: Table, data: seq<bytes>, r: Read, ok: bool)
    requires Source(t, data)
  {
    Makes(t, data, r) && (ok && InBlock(r) ==> Covered(t, data[r.id], r.id, r.lo, r.hi))
  }

  /** A reader of checked blocks: its table, and a bit for each chunk it has checked. */
  class Reader {
    const t: Table
    const checks: bool
    var verified: seq<bool>

    constructor (t: Table, checks: bool)
      ensures this.t == t && this.checks == checks && forall k :: 0 <= k < |verified| ==> !verified[k]
    {
      this.t, this.checks := t, checks;
      var words := (|t.locs| * MAX_CHUNK_CRCS + 63) / 64;
      verified := seq(words * 64, i => false);
    }

    /** `verify`'s fallback. */
    method CheckWhole(loc: Loc, id: nat, raw: bytes, base: nat) returns (ok: bool)
      modifies this`verified
      ensures Checked(ok, verified) == Whole(loc, id, raw, base, old(verified))
    {
      if base != 0 || |raw| != loc.stored {
        return false;
      }
      if IsVerified(verified, id, 0) {
        return true;
      }
      if Chunked.Sum(raw) != loc.crc {
        return false;
      }
      verified := SetVerified(verified, id, 0);
      ok := true;
    }

    /** One chunk, unless its bit is set: the bit set after its bytes matched. `last` is an outcome that ends the walk. */
    method CheckChunk(loc: Loc, id: nat, raw: bytes, base: nat, j: nat) returns (last: Option<bool>)
      modifies this`verified
      ensures var a, b, want := j * CHUNK, Min((j + 1) * CHUNK, base + |raw|), ChunkCrc(t, id, j);
        if want.None? || a >= b || a < base then
          last.Some? && Checked(last.value, verified) == Whole(loc, id, raw, base, old(verified))
        else if IsVerified(old(verified), id, j) then last == None && verified == old(verified)
        else if Chunked.Sum(raw[a - base..b - base]) != want.value then last == Some(false) && verified == old(verified)
        else last == None && verified == SetVerified(old(verified), id, j)
    {
      var a, b, want := j * CHUNK, Min((j + 1) * CHUNK, base + |raw|), ChunkCrc(t, id, j);
      if want.None? || a >= b || a < base {
        var ok := CheckWhole(loc, id, raw, base);
        return Some(ok);
      }
      if !IsVerified(verified, id, j) {
        if Chunked.Sum(raw[a - base..b - base]) != want.value {
          return Some(false);
        }
        verified := SetVerified(verified, id, j);
      }
      last := None;
    }

    /** `verify`'s walk over the chunks a range touches. */
    method CheckChunks(loc: Loc, id: nat, raw: bytes, base: nat, first: nat, end: nat) returns (ok: bool)
      modifies this`verified
      ensures Checked(ok, verified) == ChunksFrom(t, loc, id, raw, base, first, end, old(verified))
    {
      var j := first;
      while j <= end
        invariant ChunksFrom(t, loc, id, raw, base, j, end, verified)
               == ChunksFrom(t, loc, id, raw, base, first, end, old(verified))
        decreases end + 1 - j
      {
        var last := CheckChunk(loc, id, raw, base, j);
        if last.Some? {
          return last.value;
        }
        j := j + 1;
      }
      ok := true;
    }

    /**
     `verify`: with checks on, over any source the table is of, bits that were sound stay sound, and a
     range inside its block passes only where checksums that matched cover it.
     */
    method Verify(r: Read, ghost data: seq<bytes>) returns (ok: bool)
      requires Source(t, data) && Sound(t, data, verified) && Makes(t, data, r)
      modifies this`verified
      ensures !checks ==> ok && verified == old(verified)
      ensures checks ==> Checked(ok, verified) == Check(t, t.locs[r.id], r.id, r.raw, r.base, r.lo, r.hi, old(verified))
      ensures Sound(t, data, verified)
      ensures checks && ok && WholeTable(t) && InBlock(r) ==> Covered(t, data[r.id], r.id, r.lo, r.hi)
    {
      if !checks {
        return true;
      }
      var loc := t.locs[r.id];
      CheckSound(t, data, r.id, r.raw, r.base, r.lo, r.hi, verified);
      if WholeTable(t) && InBlock(r) { PassedIsCovered(t, data, r.id, r.raw, r.base, r.lo, r.hi, verified); }
      if !loc.chunkCrc || r.hi > r.base + |r.raw| || r.lo < r.base || r.lo >= r.hi {
        ok := CheckWhole(loc, r.id, r.raw, r.base);
      } else {
        ok := CheckChunks(loc, r.id, r.raw, r.base, r.lo / CHUNK, (r.hi - 1) / CHUNK);
      }
    }

    /** Any run of reads: every one of them that passes is covered, whatever passed or failed before it. */
    method ReadAll(asked: seq<Read>, ghost data: seq<bytes>) returns (oks: seq<bool>)
      requires Source(t, data) && WholeTable(t) && Sound(t, data, verified) && checks
      requires forall k :: 0 <= k < |asked| ==> Makes(t, data, asked[k])
      modifies this`verified
      ensures |oks| == |asked| && Sound(t, data, verified)
      ensures forall k :: 0 <= k < |asked| ==> Honest(t, data, asked[k], oks[k])
    {
      oks := [];
      var i := 0;
      while i < |asked|
        invariant i == |oks| <= |asked| && Sound(t, data, verified)
        invariant forall k :: 0 <= k < i ==> Honest(t, data, asked[k], oks[k])
      {
        var ok := Verify(asked[i], data);
        oks := oks + [ok];
        i := i + 1;
      }
    }
  }

  /** A reader starts sound: nothing is checked. */
  lemma {:induction false} StartsSound(t: Table, data: seq<bytes>, bits: seq<bool>)
    requires Source(t, data) && forall k :: 0 <= k < |bits| ==> !bits[k]
    ensures Sound(t, data, bits)
  {}

  /** A block with a row, whose first chunk matches and whose own checksum does not. */
  ghost predicate Doubtful(t: Table, data: seq<bytes>, id: nat)
    requires Source(t, data)
  {
    && |t.rows| == |t.locs| && id < |data| && |t.rows[id]| == MAX_CHUNK_CRCS
    && ChunkMatches(t, data[id], id, 0) && !BlockMatches(t, data[id], id)
  }

  lemma {:induction false} FirstChunkPasses(t: Table, data: seq<bytes>, id: nat, none: seq<bool>)
    requires Source(t, data) && Doubtful(t, data, id) && |data[id]| > CHUNK
    requires SlotOf(id, 0) < |none| && forall k :: 0 <= k < |none| ==> !none[k]
    ensures Check(t, t.locs[id], id, data[id], 0, 0, CHUNK, none) == Checked(true, SetVerified(none, id, 0))
  {
    assert ChunkAt(data[id], 0) == data[id][0..CHUNK];
    assert (CHUNK - 1) / CHUNK == 0;
  }

  /**
   Why the rows must hold every chunk: of a block of more than sixteen, once a fresh reader has checked the
   first, the rest past the sixteenth passes, and nothing vouches for it.
   */
  lemma {:induction false} LongBlockSlips(t: Table, data: seq<bytes>, id: nat, none: seq<bool>)
    requires Source(t, data) && Doubtful(t, data, id) && |data[id]| > MAX_CHUNK_CRCS * CHUNK
    requires SlotOf(id, 0) < |none| && forall k :: 0 <= k < |none| ==> !none[k]
    ensures var raw, loc := data[id], t.locs[id];
      var first := Check(t, loc, id, raw, 0, 0, CHUNK, none);
      && first.ok && Sound(t, data, first.bits)
      && Check(t, loc, id, raw, 0, MAX_CHUNK_CRCS * CHUNK, |raw|, first.bits).ok
      && !Covered(t, raw, id, MAX_CHUNK_CRCS * CHUNK, |raw|)
  {
    FirstChunkPasses(t, data, id, none);
    StartsSound(t, data, none);
    SetSound(t, data, none, id, 0);
    assert ChunkCrc(t, id, MAX_CHUNK_CRCS).None?;
    assert MAX_CHUNK_CRCS <= (|data[id]| - 1) / CHUNK;
    assert !Vouched(t, data[id], id, MAX_CHUNK_CRCS);
  }

  /** What passes over a block, on any sound bits, is covered. */
  ghost predicate PassingIsCovered(t: Table, data: seq<bytes>, id: nat)
    requires Source(t, data) && id < |data|
  {
    forall lo, hi, bits :: 0 <= lo < hi <= |data[id]| && Sound(t, data, bits) && Check(t, t.locs[id], id, data[id], 0, lo, hi, bits).ok ==>
      Covered(t, data[id], id, lo, hi)
  }

  /** Exactly where the block has no more chunks than a row, the rest of the table being whole. */
  lemma {:induction false} CoveredWhereShort(t: Table, data: seq<bytes>, id: nat)
    requires Source(t, data) && Doubtful(t, data, id)
    requires forall i :: 0 <= i < |t.rows| ==> |t.rows[i]| == MAX_CHUNK_CRCS
    requires forall i :: 0 <= i < |t.locs| && i != id && t.locs[i].chunkCrc ==> t.locs[i].stored <= MAX_CHUNK_CRCS * CHUNK
    ensures PassingIsCovered(t, data, id) <==> t.locs[id].stored <= MAX_CHUNK_CRCS * CHUNK
  {
    var raw := data[id];
    assert raw[0..0 + |raw|] == raw;
    if |raw| <= MAX_CHUNK_CRCS * CHUNK {
      forall lo, hi, bits | 0 <= lo < hi <= |raw| && Sound(t, data, bits) && Check(t, t.locs[id], id, raw, 0, lo, hi, bits).ok
        ensures Covered(t, raw, id, lo, hi)
      {
        PassedIsCovered(t, data, id, raw, 0, lo, hi, bits);
      }
    } else {
      LongBlockSlips(t, data, id, seq(SlotOf(id, 0) + 1, k => false));
    }
  }

  /**
   An empty range is not checked by chunk, whatever it is in: it passes exactly where what was fetched is
   the whole block, and that is remembered or matches.
   */
  lemma {:induction false} EmptyPasses(t: Table, loc: Loc, id: nat, raw: bytes, base: nat, at: nat, bits: seq<bool>)
    ensures Check(t, loc, id, raw, base, at, at, bits).ok <==>
      base == 0 && |raw| == loc.stored && (IsVerified(bits, id, 0) || Chunked.Sum(raw) == loc.crc)
  {}
}
