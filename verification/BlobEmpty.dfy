/** A key with no values, written into a block and read back: the one extent a sound segment refuses to read. */
module BlobEmpty {
  import opened Bytes
  import opened Wrappers
  import opened Runs
  import opened Chunked
  import BlockBuilder
  import opened BlobVerify
  import opened BlobTable
  import opened BlobRead

  /** The run of no values, packed before another key's, and the block they share. */
  method PackNone() returns (e: Ext, block: bytes)
    ensures block == [7] && !e.IsInline() && e.block == 0 && e.off == 0 && e.len == 0 && ValuesOf([], e) == Decoded([], None)
  {
    var run, last, flag := EncodeRun([], [], []);
    assert run == [] && flag == 0;
    var builder := new BlockBuilder.Builder(CHUNK);
    var off := builder.Push(run);
    var next := builder.Push([7]);
    block := builder.Take();
    ConcatSnoc([], []);
    ConcatSnoc([[]], [7]);
    assert [] + [run] == [[]] && [[]] + [[7]] == [[], [7]];
    e := Ext(0, off, |run|, last, TOMBSTONE + flag);
  }

  /** With checks on the extent is refused, over a block whose checksums all match; with them off it is read. */
  method EmptyIsRefused(z: Codec) returns (checked: Option<bytes>, unchecked: Option<bytes>)
    ensures checked.None? && unchecked == Some([])
  {
    var e, block := PackNone();
    var stored := [Block(0, block, |block|, false)];
    assert StoredBytes(stored) == [block];
    var t := MakeTable(stored);
    assert Enters(t.locs[0], stored[0]);
    var strict := new Reader(t, true);
    var lax := new Reader(t, false);
    StartsSound(t, [block], strict.verified);
    StartsSound(t, [block], lax.verified);
    checked := WithExtent(strict, z, e, [block], [block]);
    unchecked := WithExtent(lax, z, e, [block], [block]);
  }
}
