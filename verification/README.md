# The storage layer, modelled and proved

A Dafny model of the storage layer of a read-optimised multi-value key store: the checksum and chunk
codec, the ordered index of heads, the flat key index with its hash table and fence, the planned and
checked reads of a segment, and the arithmetic that sizes a segment and reports latencies. Each fast
structure is proved to answer as a simple one does, for every input.

`dafny verify dfyconfig.toml` checks the whole project.

| files | what they model |
|---|---|
| `Bytes`, `Wrappers` | byte strings and their order, little-endian words, results |
| `Gf2`, `Gf2Bits`, `Crc`, `CrcCombine` | CRC-32C: one bit at a time, eight bytes a step, and combined by matrices over bits |
| `Chunked`, `ChunkedRead`, `BlockBuilder` | a block cut into chunks, written, read by range, and packed |
| `Heads`, `OrdSearch`, `OrdIndex`, `OrdSeek` | the ordered index: eight bytes a key, composed, opened and sought |
| `HashTable`, `HashMap`, `HashFill` | the open-addressed table: its meaning as a map, its updates and its three fills |
| `Varint`, `Runs`, `Records`, `RecordProofs`, `RecordWalk` | values to runs, runs to records, and back |
| `FenceSeek`, `FlatParse`, `FlatHolds`, `FlatLayout`, `FlatWrite`, `FlatBuild`, `FlatEncode`, `FlatAnswers` | a section: two writers, one parser, and every read answered as the list answers it |
| `BlobTable`, `BlobPlan`, `BlobVerify`, `BlobRead`, `BlobEmpty`, `BlobScan`, `BlobScanLoop`, `Intersect`, `IntersectRead` | a segment's block table and its reads: planned, checked, decoded, scanned and intersected |
| `Pieces`, `SparseCheck`, `SparseWalk` | a sparse reader that walks a range of the dictionary from two plans |
| `ReservePlan`, `ReserveBound`, `ReserveInline` | what a segment's head reserves, exactly and from totals |
| `Hist` | the latency histogram and its error bound |

Conventions. A byte is `0..255` and keys are compared lexicographically. Objects the code updates are
classes or arrays, and their methods are proved against functions of what they hold. Hardware words are
`bv32` in the checksum and bounded naturals elsewhere. A compressor is a pair of functions with
`decompress(compress(x)) == x`. A hash is any function into 64-bit words. The racing fill is a state
machine over its threads' positions, run under an arbitrary schedule. Parameters `z`, `hash`, `keyAt`
and `target` stand for the compressor, the key hash, the key source and the fence's target.

## Model

| member | source | states |
|---|---|---|
| Crc.BuildCrcTables | src/block.rs:28-56 | Table `j` holds, for every byte, the polynomial register that byte leaves after `8 * (j + 1)` zero bits. |
| Crc.Crc32Scalar | src/block.rs:59-78 | The loop that takes eight bytes a step and finishes bytewise computes the bit-at-a-time CRC-32C register (section 12.1 of RFC 3720), for every initial register and every length. |
| Crc.Crc32Resume | src/block.rs:116-125 | Resuming from a finished checksum continues the register that produced it. |
| Crc.Resumed | src/block.rs:116-125 | Resuming from the checksum of `a` over `b` is the checksum of `a + b`, for all `a` and `b`. |
| CrcCombine.BitMapExists | src/block.rs:163-205 | The words, shift and parity the algebra is proved over are those of 32-bit words: the laws every combine result assumes are met. |
| CrcCombine.Gf2Times | src/block.rs:163-174 | The loop over the set bits of a vector is the matrix applied as a linear map. |
| CrcCombine.Gf2Square | src/block.rs:176-182 | Squaring column by column is the matrix of the map composed with itself. |
| Gf2Bits.SquareComposes | src/block.rs:176-182 | Applying a squared matrix is applying the matrix twice. |
| CrcCombine.ShiftMatrices | src/block.rs:184-205 | Matrix `k` moves a register past `2^k` zero bytes, for each of the 64. |
| CrcCombine.ShiftPast | src/block.rs:141-157 | The loop over a length's bits moves a register past exactly that many zero bytes. |
| CrcCombine.Crc32Combine | src/block.rs:141-157 | What the loop returns is the two checksums combined as `CombineLaw` has it. |
| CrcCombine.CombineLaw | src/block.rs:141-157 | Two checksums combine to the checksum of the concatenation, for all byte strings: combining is a homomorphism. |
| CrcCombine.CombineEmpty | src/block.rs:141-157 | A zero checksum, which is that of nothing, combines to the other. |
| Chunked.WriteChunked | src/block.rs:414-450 | The writer, which leaves a hole and patches the directory once each chunk's end is known, makes the header, directory and chunks of the source cut in order, a chunk kept compressed only where that is shorter. |
| Chunked.HeaderLenIs | src/block.rs:454-456 | The directory's length is the size of the words it is made of. |
| ChunkedRead.BlockReads | src/block.rs:458-523 | Every directory entry of a written block locates its chunk's bytes, marks it verbatim or compressed rightly, and passes its checksum. |
| ChunkedRead.ReadChunkedRange | src/block.rs:458-523 | Over a written block, a read of any range in it, an empty one included, restores the source on every chunk the range touches and leaves every other byte of the destination alone; it fails exactly where the block has no chunks or more than the reader's limit, and then writes nothing. |
| BlockBuilder.Builder.Push | src/block.rs:297-327 | An extent goes after those already staged, whatever their size, and its offset is the length of those before it; where the caller asked first, the block stays within its target or is the one extent. |
| BlockBuilder.Builder.Take | src/block.rs:325-327 | The block handed over is every extent pushed, in order, and the builder is empty again. |
| BlockBuilder.ExtentAt | src/block.rs:319-323 | Each pushed extent lies at its returned offset in the block taken. |
| Heads.HeadMonotone | src/ordindex.rs:200-206 | Heads never contradict the keys: a key no greater has a head no greater, zero padding and mixed lengths included. |
| Heads.HeadDecides | src/ordindex.rs:200-206 | Two heads that differ decide the order of their keys. |
| Heads.TieOfWhole | src/ordindex.rs:970-1006 | Where a head is a whole key, a tie is decided by lengths alone: equal, above or below, as the lengths are. |
| Heads.WholeKey | src/ordindex.rs:501-516 | The prefix and the head's first bytes are the key itself, for a key no longer than both. |
| OrdIndex.Composer.Push | src/ordindex.rs:313-318 | One pass that pushes each key's head keeps the file's body and the uniform length for the keys seen. |
| OrdIndex.Compose | src/ordindex.rs:262-361 | The composed file is the header, the heads of all keys after their common prefix, and a checksum of both, the header's five words patched in afterwards. |
| OrdIndex.FileOpens | src/ordindex.rs:400-460 | Opening a composed file for as many keys answers the prefix length and, exactly where all keys share a length, that length. |
| OrdIndex.EveryKeyHasPrefix | src/ordindex.rs:355-361 | The prefix of the first and last key of an ascending list is every key's. |
| OrdSeek.Open | src/ordindex.rs:400-460 | Opening succeeds exactly where length, checksum, magic, key count, uniform length and heads agree, with the error of the first that does not, and the index then holds the file's heads, its sampled top and no prefix. |
| OrdSeek.ComposeAndOpen | src/ordindex.rs:262-460 | For every ascending list of keys, composing and opening yields an index that describes the list, and is uniform exactly where the list is. |
| OrdSearch.CmpShort | src/ordindex.rs:1013-1045 | Comparing a word at a time with an overlapping tail is the lexicographic order. |
| OrdSearch.SelectLowerBound | src/db.rs:12994-13003 | The branch-free halving loop returns the partition point of any monotone test. |
| OrdSeek.OutsidePrefix | src/ordindex.rs:941-968 | A query that leaves the common prefix is wholly below or above every key, as its bytes against the prefix say. |
| OrdSeek.Index.LearnPrefix | src/ordindex.rs:471-474 | Learning the prefix from the first key keeps the index describing its list. |
| OrdSeek.Index.WholeKeyAt | src/ordindex.rs:501-516 | Answers exactly for a uniform index with its prefix learned, at a rank in range, and the answer is the list's key. |
| OrdSeek.Index.RunEnd | src/ordindex.rs:773-795 | Galloping and halving over tied heads ends at the first larger head. |
| OrdSeek.Index.ExactAt | src/ordindex.rs:970-1006 | From the first head not below the query's, the run of ties resolved through keys, or lengths alone, gives the query's rank, and a flag that is never wrong. |
| OrdSeek.Index.SeekExact | src/ordindex.rs:816-822 | For every ascending list and every query, the first rank whose key is not below the query; a flag, where given, says exactly whether that key is the query, and a uniform index always gives one. |
| OrdSeek.Index.SeekExactHint | src/ordindex.rs:833-875 | As `SeekExact`; besides, a window is announced exactly for a non-empty index and a query with its prefix, it is the stride of the top level's partition point, and the rank is past it exactly where the window's end ties the query's head and is below it. |
| OrdSeek.WindowCanBeLeft | src/ordindex.rs:824-875 | By calls: an index of the one key `a`, sought with `a` and a zero byte, announces the window `(0, 0)` and answers rank 1. |
| OrdSeek.Index.SeekExactFrom | src/ordindex.rs:889-931 | From any rank whatever, the answer of `SeekExact`. |
| OrdSeek.Index.SeekInExact | src/ordindex.rs:693-760 | Over any window, that window's lower bound with a flag that is never wrong; an empty window answers its end and `false`. |
| OrdSeek.Index.AdvanceBelow | src/ordindex.rs:523-564 | From any rank, the first from there whose key is not below the query, heads galloped first or keys compared. |
| HashTable.HashCapFor | src/flatindex.rs:95-102 | The capacity is the least power of two, at least 16, that leaves a quarter of the slots empty, so always more than the keys; `None` only where the arithmetic leaves a word. |
| HashTable.PlaceKeeps | src/flatindex.rs:120-164 | Storing an entry in the first empty slot past its home keeps every placed entry reachable: no empty slot between a home and a place. |
| HashFill.FillHash | src/flatindex.rs:120-164 | The fill in place ends with every entry probed to its slot in order, and asks for each key once, in order. |
| HashFill.FillHashAhead | src/flatindex.rs:120-164 | Through a ring of sixteen entries looked ahead, the identical table, each key asked for once and in order. |
| HashFill.FilledDenotes | src/flatindex.rs:120-164 | The filled table stands for exactly the map from each key to its record. |
| HashFill.StepKeeps | src/flatindex.rs:1474-1520 | Any one step of any thread of the compare-exchange fill keeps the invariant: placed entries reachable, probing threads past only full slots, no entry placed twice. |
| HashFill.RaceDenotes | src/flatindex.rs:1474-1520 | For any number of threads dealt the code's ranges and any schedule: every state reached keeps the invariant, the steps taken are bounded, and a state with every thread finished is a table that stands for the same map as the plain fill. |
| HashMap.Lookup | src/flatindex.rs:1810-1873 | The probe loop answers a key's record where the map has it and `None` where not. |
| HashMap.SlotOf | src/flatindex.rs:2120-2142 | A slot is found exactly for a key of the map, and holds that key's tag and record. |
| HashMap.SlotForInsert | src/flatindex.rs:2049-2076 | A slot is given exactly for a key not in the map and a table not full, and is the first empty one on the key's path. |
| HashMap.InsertAdds | src/flatindex.rs:2049-2076 | Storing a key's word in that slot adds the one key and changes no other lookup. |
| HashMap.UpdateMoves | src/flatindex.rs:2120-2142 | Storing a new record's word in a key's own slot moves that key alone. |
| Varint.PutUvarint | src/index.rs:158-164 | The bytes appended are the value in groups of seven bits, lowest first, the top bit set on all but the last. |
| Varint.ReadUvarint | src/index.rs:178-196 | The reader's value and end for any bytes: over-long input wraps as the code's shift does, and a cut-off one ends with the input. |
| Varint.WrappedIsMod | src/index.rs:178-196 | What the shift keeps of an over-long value is the value modulo 2^64. |
| Varint.UvarintRoundTrip | src/index.rs:158-196 | Every 64-bit value is read back from anywhere inside a buffer, and the reader stops exactly at its end. |
| Runs.EncodeRun | src/index.rs:243-260 | The run, the last record's place and the flag are those of the values: back to back where all share one non-zero width, else each behind its length. |
| Runs.EachValue | src/index.rs:210-238 | Hands out the values of the naive decoding, in order, with its damage, for any bytes and extent. |
| Runs.RunRoundTrip | src/index.rs:210-260 | Every list of values decodes from its run unchanged, with its count and tombstone flag. |
| RecordWalk.RecordInto | src/flatindex.rs:912-953 | Laid down in place, a buffer of the record's length becomes the record exactly, and the tail's place in it is returned. |
| Records.RecordLength | src/flatindex.rs:877-891 | The length computed beforehand is the record's, and is a multiple of four. |
| RecordProofs.CompactRoundTrip | src/flatindex.rs:781-842 | The extent a compact record never stored is rebuilt whole, `last` included. |
| RecordProofs.RecordRoundTrip | src/flatindex.rs:539-594 | A record of values, compact or not, wherever it lies in a buffer, parses to its key, extent and tail, decodes to its values, count, flag and `last`, and is as long as `segment_record_len` says. |
| RecordWalk.KeyAgrees | src/flatindex.rs:497-504 | The key read alone is the parser's, for any record that parses. |
| RecordWalk.NextAgrees | src/flatindex.rs:521-536 | The key and next record read alone are the parser's, for any record that parses inside its buffer. |
| RecordWalk.WalkKeys | src/flatindex.rs:521-536 | Stepping record by record visits the keys the specification does and ends well exactly where that does. |
| RecordWalk.WalkVisits | src/flatindex.rs:521-536 | Over records written end to end, each key is visited once, in order, and the walk ends exactly at the end. |
| FenceSeek.StrideMeetsTarget | src/flatindex.rs:243-246 | The stride is a power of two, at least sixteen, keeps the fence within its target, and the half of a larger one would not. |
| FenceSeek.FenceWindow | src/flatindex.rs:2260-2280 | The window is one stride, clipped to the ranks, found by the fence's search for the query. |
| FenceSeek.SeekWith | src/flatindex.rs:2283-2333 | Whatever bytes the fence holds, the answer is the first rank not below the query, with the fence or without; with the writer's own fence the search of every record is never taken. |
| FlatParse.ParsedIsSound | src/flatindex.rs:1602-1765 | Any section the parser accepts has its table, directory and records inside it and disjoint, a table of a power of two slots, no fewer than its keys, and a fence that is absent or fits. |
| FlatWrite.LayoutFits | src/flatindex.rs:1173-1225 | A planned layout's regions follow each other inside its total and no more than padding is lost. |
| FlatHolds.RunsMake | src/flatindex.rs:912-953 | Every record the record writer makes from values is one the sections below hold. |
| FlatHolds.RankReads | src/flatindex.rs:1933-2040 | In an accepted section that holds a list, each rank's record, and key alone, is the list's, and a rank past it answers nothing. |
| FlatHolds.Seek | src/flatindex.rs:2283-2333 | A seek answers the first rank of the list not below the query, never searching every record where there is a fence. |
| FlatHolds.LookupFull | src/flatindex.rs:1844-1873 | A lookup answers the extents and tail of the list's record for the key, or nothing exactly where the list has no such key. |
| FlatBuild.StreamTrailer | src/flatindex.rs:984-1084 | Built from a key callback, the fence, directory, table and header are those of the records streamed before them, and the end returned is the section's; refused only past the format's limits. |
| FlatWrite.StreamServes | src/flatindex.rs:984-1084 | The parser accepts header, records and trailer, and the section holds the list. |
| FlatEncode.PlanInline | src/flatindex.rs:1099-1152 | The planned offsets are the records' prefix sums, their sum the records' length, refused only past the limit. |
| FlatEncode.WriteRecords | src/flatindex.rs:1319-1413 | Records and directory entries written in any order that covers every rank fill both regions as writing in rank order does, and touch no other byte. |
| FlatEncode.EncodeInline | src/flatindex.rs:1259-1522 | Planned, cut to its regions and filled one by one, the buffer is the section of the list, its capacity and stride those the sizing rules give; refused only where planning is. |
| FlatWrite.EncodeServes | src/flatindex.rs:1259-1522 | The parser accepts such a section if and only if it has no insert room or its directory starts below 2^32, and then it holds the list. |
| FlatAnswers.StreamAndAsk | src/flatindex.rs:984-1084 | From the list to the answers: what the streaming writer writes is accepted, and every rank, lookup and seek is answered as the list answers it, the search of every record never taken. |
| FlatAnswers.EncodeAndAsk | src/flatindex.rs:1259-1522 | The same for the section laid out whole, accepted exactly where the condition on insert room holds of the capacity `hash_cap_for` gives. |
| FlatAnswers.RefusalReached | src/flatindex.rs:95-102 | The capacity that reaches the refused side: 201326593 keys take 2^29 slots, whose bytes put the directory past 2^32, and as many eight-byte records are inside the record limit. |
| FlatAnswers.RefusedList | src/flatindex.rs:1259-1522 | A list that does: as many deleted keys of four bytes, in ascending order, written with insert room of one; the section is complete and the parser refuses it. |
| FlatAnswers.SectionScans | src/blob.rs:1895-2102 | A written section is one the scan takes as well formed, with the entries of its list. |
| FlatAnswers.RunsAreSane | src/blob.rs:1895-2102 | A record made of values hands a scan exactly those values. |
| BlobPlan.Compact | src/blob.rs:445-459 | Compacted in place, sorted ranges become pairwise apart and name exactly the same bytes. |
| BlobPlan.Ranges.Merge | src/blob.rs:445-459 | Any ranges, empty and overlapping ones included, become sorted, pairwise apart, and name exactly the same bytes. |
| BlobPlan.RangesForExts | src/blob.rs:1254-1273 | Planned exactly where every extent names a block of the table; the plan is merged and names exactly the bytes of the spans the reads fetch. |
| BlobPlan.PlanContains | src/blob.rs:1261-1273 | Every byte of an extent inside its plain block is planned. |
| BlobPlan.PlanContainsBlock | src/blob.rs:1261-1273 | A block that is compressed, or has no chunk checksums, is planned whole. |
| BlobPlan.SpanHolds | src/blob.rs:2276-2287 | The fetched span is cut at chunks or the block's end and holds the extent. |
| BlobPlan.EmptyExtent | src/blob.rs:1358-1411 | Over a plain block whose bytes match, the check of an empty extent's fetched span passes if and only if the block has no chunk checksums, is empty, or is one chunk with the extent beginning inside it and after its first byte. |
| BlobPlan.ReadPlain | src/blob.rs:1435-1458 | Fetches exactly the planned span; what it answers is the extent's bytes, covered by checksums that matched where checks are on; where every checksum matches, an extent inside its block is refused exactly where checks are on and it is such an empty one. |
| BlobRead.WithExtent | src/blob.rs:1435-1508 | The extent's own bytes, however its block is stored: plain, chunked or compressed as one, on blocks whose checksums match; refused if and only if checks are on and the extent is empty and its span is not its whole plain block. |
| BlobVerify.SlotsApart | src/blob.rs:1323-1338 | No two chunks share a verified bit. |
| BlobVerify.CheckSound | src/blob.rs:1358-1411 | A bit is set only after a checksum over its chunk matched, whatever range was asked and however the check ended. |
| BlobVerify.PassedIsCovered | src/blob.rs:1358-1411 | A non-empty range inside what was fetched that passes is covered by checksums that matched. |
| BlobVerify.MatchedPasses | src/blob.rs:1358-1411 | A range whose checksums match passes, whatever bits are set: no false alarm. |
| BlobVerify.RefusedAgain | src/blob.rs:1358-1411 | A range refused is refused again on the bits its refusal left. |
| BlobVerify.Reader.Verify | src/blob.rs:1358-1411 | One check in place: the answer and the bits are the specification's, and with checks off nothing changes. |
| BlobVerify.Reader.ReadAll | src/blob.rs:1358-1411 | Over any run of checks on one reader, every non-empty range that passed is covered by matched checksums. |
| BlobVerify.StartsSound | src/blob.rs:717-759 | A reader just opened, no bit set, vouches for nothing. |
| BlobVerify.LongBlockSlips | src/blob.rs:1358-1411 | Of any block of more than sixteen chunks whose own checksum does not match, once a fresh reader has passed its first chunk, the rest past the sixteenth passes with nothing vouching for it. |
| BlobVerify.CoveredWhereShort | src/blob.rs:1358-1411 | For a block whose first chunk matches and whose own checksum does not, all that passes is covered if and only if the block has no more than sixteen chunks. |
| BlobVerify.EmptyPasses | src/blob.rs:1358-1411 | A check of an empty range passes if and only if what was fetched is the whole block, and the block is remembered or its checksum matches. |
| BlobEmpty.EmptyIsRefused | src/db.rs:6903-6965 | By calls: a tombstone of no values packed at offset 0 of a block another key fills, its table and reader made, is refused with checks on and read as no bytes with them off. |
| BlobTable.ChunkCrcs | src/block.rs:387-397 | A row of checksums exactly for a block of one to sixteen chunks, each chunk's in its place. |
| BlobTable.PushBlock | src/db.rs:7143-7166 | A block closed keeps the whole table true to the stored bytes, earlier entries as they were, and carries chunk checksums exactly where it is plain and a row can hold them. |
| BlobTable.MakeTable | src/db.rs:7143-7166 | Every table filled so has an entry for each block with that block's fields, and satisfies what the checks and reads assume: whole rows, every checksum its bytes' own, no checksummed block past sixteen chunks. |
| BlobScan.FastRecord | src/blob.rs:1895-2102 | Read in place, a common record hands out what the parser and the decoder do; any other is left to the general loop and none is called damaged. |
| BlobScanLoop.ScanAt | src/blob.rs:1895-2102 | From any rank, with any limit, the entries handed out are those of the naive walk, whichever loop took each record and however each block was read: kept, lent, plain, chunked or compressed. It ends early if and only if some rank it takes has an extent that is not lent and whose own read is refused, and then in the first such rank, its entries so far a prefix of the walk's. |
| Intersect.NeverTooMany | src/blob.rs:1565-1630 | The two-pointer walk never counts more than two lists share, and counts exactly that where both ascend, repeated values as often as both hold them. |
| Intersect.RightWhereRising | src/blob.rs:1565-1630 | The count is right against every ascending list if and only if the list ascends itself. |
| Intersect.FallMisses | src/blob.rs:1565-1630 | The values 2, 1 against 1, 2: one is counted, two are shared. |
| Intersect.CountRuns | src/blob.rs:1605-1630 | Over runs where they lie, with values of four or eight bytes compared as words, the count of the walk over the decoded values. |
| IntersectRead.IntersectFixed | src/blob.rs:1565-1682 | Missing keys count nothing; otherwise the walk's count of the two keys' decoded values, whichever path reads them, never more than they share, and exactly that where both ascend; refused if and only if both keys are there and some extent's read is refused. |
| IntersectRead.ReadExts | src/blob.rs:1538-1546 | Every value of every extent in order, inline and block runs alike; refused if and only if some extent's read is. |
| Pieces.PiecesPartition | src/flatindex.rs:266-295 | The pieces of non-empty content are non-empty, end to end, and cover it. |
| Pieces.CountIs | src/flatindex.rs:266-269 | Their number is the one computed. |
| Pieces.PieceList | src/flatindex.rs:278-295 | The loop lists them, in order, relative to the content. |
| Pieces.SamePages | src/blob.rs:2250-2265 | Rounding a range out to pieces cuts the same pages as checking it does, and the rounded range holds it. |
| SparseCheck.Checker.VerifySpan | src/blob.rs:2509-2543 | Passes exactly where every piece the span touches matches the row; reads only inside those pieces; a bit is set only where a piece matched. |
| SparseWalk.RankWindow | src/blob.rs:2579-2591 | The window of ranks holds every key of the range, and begins at most one stride early. |
| SparseWalk.DirSlice | src/blob.rs:2624-2642 | The directory words of the window, read only from the planned pieces, or from memory alone where resident. |
| SparseWalk.RecordSpan | src/blob.rs:2646-2678 | An empty window has no bytes; a rising directory gives the span between its first and last offset; any other the span from its least to the bump. |
| SparseWalk.SpanIs | src/blob.rs:2646-2678 | For records laid in key order, that is exactly the bytes of those ranks' records. |
| SparseWalk.DictionaryPlan | src/blob.rs:2596-2610 | Phase one: the directory words of the window rounded to pieces, empty where the directory is resident. |
| SparseWalk.DictionaryPlanRecords | src/blob.rs:2682-2690 | Phase two: the window's records rounded to pieces, given wherever every piece matches. |
| SparseWalk.DictionaryWalk | src/blob.rs:2695-2745 | Hands out exactly the list's keys in the range, in order, up to the caller's stop; every byte read lies in the two plans, in the second alone where the directory is resident; no error where every piece matches. |
| ReservePlan.RunLen | src/reserve.rs:44-63 | From lengths alone, exactly the bytes the values encode to. |
| ReservePlan.Planner.Push | src/reserve.rs:180-214 | One key at a time, with one key length in sixteen kept, the planner stands for the whole list so far. |
| ReservePlan.Planner.Finish | src/reserve.rs:241-288 | The reserve is that of the whole list: same fence, directory and blocks cut; refused exactly where the list cannot be written or laid out. |
| ReservePlan.ForLengths | src/reserve.rs:349-360 | The same over a slice. |
| ReservePlan.BytesBound | src/reserve.rs:72-105 | The greedy cut makes no more blocks than the bytes over the size less the longest run, rounded up. |
| ReserveBound.RowCovers | src/reserve.rs:232-288 | A row sized at the worst alignment is never short at any, and at most one piece over. |
| ReserveBound.StreamedTotal | src/flatindex.rs:984-1084 | A streamed section is at most four bytes longer than the layout the planner sizes by. |
| ReserveBound.StreamedRow | src/reserve.rs:232-288 | So the row is never short for it either, at any eight-aligned place. |
| ReserveBound.FromTotals | src/reserve.rs:374-411 | From totals alone, the answer of the even shape with its table widened to the worst count of blocks. |
| ReserveBound.TotalsBound | src/reserve.rs:374-424 | With nothing inline, that is no smaller than the exact reserve of any list that meets the totals, piece by piece and in all. |
| ReserveInline.LongRunMisses | src/reserve.rs:374-411 | With runs of up to four bytes inline: 4096 runs of one byte and one of 20485, whose row is a piece more than the bound's. |
| ReserveInline.PaddingMisses | src/reserve.rs:374-411 | With longer runs inline: 12288 runs of one byte and 4096 of five, whose row is a piece more than the bound's. |
| ReserveInline.TableMisses | src/reserve.rs:374-411 | Two keys of four bytes, with a run of none and one a byte too long to go inline, blocks of more than twice that: the bound's table is of no blocks and the list's of one, for either form of record. |
| ReserveInline.BoundsWhereNoneInline | src/reserve.rs:374-411 | The totals bound every list that can be written if and only if inlining is off. |
| Hist.InBucket | bench/src/hist.rs:50-70 | Every value is in its bucket: no less than its lower edge, below the next bucket's. |
| Hist.Histogram.Record | bench/src/hist.rs:73-86 | Counts, total, sum, least and largest stand for the values recorded, one more. |
| Hist.Histogram.Percentile | bench/src/hist.rs:117-145 | The loop answers the reported edge of the bucket in which the wanted rank falls. |
| Hist.PercentileBounds | bench/src/hist.rs:117-145 | Against the true order statistic `x`, the answer is no less exactly where `x` is at most 255 * 2^56, and then is `x` or exceeds it by less than a 128th; values below 128 are exact. |
| Hist.TopIsMissed | bench/src/hist.rs:117-145 | By calls: any one value past 255 * 2^56, recorded alone, is above every percentile answered, which is 255 * 2^56. |
| Hist.PercentileMono | bench/src/hist.rs:117-145 | A higher percentile answers no less. |
| Hist.OrderFree | bench/src/hist.rs:73-158 | The answer depends on the values recorded and not on their order. |
| Hist.Histogram.Merge | bench/src/hist.rs:148-158 | Merged, a histogram stands for both lists of values, and the other is unchanged: with `OrderFree`, merging and recording answer alike. |

## Findings

Properties the code or its comments state, that are false of the code, each with an input and the exact
condition under which it holds.

- The seek window. The comment at src/ordindex.rs:824-826 says the answer lies in `lo..=hi` of the
  announced window. It lies past it exactly where the head at `hi` ties the query's and the key there is
  below the query; for a uniform index, exactly where they tie and the query is longer than the keys
  (`OrdSeek.Index.SeekExactHint`). `OrdSeek.WindowCanBeLeft` is a call that leaves it. The answer itself
  is right: the window only says what to fetch early.
- Insert room. A section laid out with room for insertions records its directory's place in a 32-bit half
  of a word, unchecked. The parser accepts what was written if and only if there is no insert room or the
  directory starts below 2^32 (`FlatWrite.EncodeServes`, `FlatAnswers.EncodeAndAsk`).
  `FlatAnswers.RefusedList` writes a list inside every other limit that is refused.
- Long blocks. The table holds sixteen chunk checksums a block, and a chunk past them falls back on the bit
  of the first. So of a longer block that carries the flag, whatever is past the sixteenth chunk passes once
  the first has (`BlobVerify.LongBlockSlips`): what passes is covered if and only if the block has no more
  than sixteen chunks (`BlobVerify.CoveredWhereShort`). Every table the writer fills is so
  (`BlobTable.MakeTable`); one read from disk is not checked for it (src/flatindex.rs:2984-2994).
- Empty extents. Hashing the whole block is the stated fallback for a range no chunk answers for
  (src/blob.rs:1353-1357), but a read of an empty extent fetches at most one chunk and then falls back. Over
  a block that matches, with checks on, it is refused if and only if the block is plain, has chunk checksums
  and is not empty, unless the block is one chunk and the extent begins after its first byte and before
  offset 4096 (`BlobPlan.EmptyExtent`, `BlobRead.WithExtent`). The writer stores a key whose values come to
  no bytes, such as a tombstone, as an empty extent: `BlobEmpty.EmptyIsRefused` writes one and is refused it. Reads of a key, intersections and scans fail exactly so
  (`IntersectRead.ReadExts`, `IntersectRead.IntersectFixed`, `BlobScanLoop.ScanAt`), save that a scan reads
  any extent of a block the source lends.
- The bound from totals. src/reserve.rs:362-373 calls `from_totals` an upper bound. It bounds every list
  that can be written if and only if inlining is off (`ReserveInline.BoundsWhereNoneInline`). Among the ways
  it fails otherwise: the even shape goes inline and its table is of no blocks where the list needs one
  (`ReserveInline.TableMisses`, two keys); an even list pads less than the list it stands for
  (`ReserveInline.PaddingMisses`); its runs are too long to go inline where the list's short ones do
  (`ReserveInline.LongRunMisses`).
- Percentiles. The last bucket's upper edge does not fit a word, so a percentile can be below the order
  statistic. It is no less if and only if the statistic is at most 255 * 2^56 (`Hist.PercentileBounds`);
  `Hist.TopIsMissed` records a value past it.
- Intersections. src/blob.rs:1559-1564 says the answer is right either way, runs that do not ascend
  included. Nothing checks that they ascend: the count is right against every ascending list if and only
  if the list ascends itself, and otherwise can be too small (`Intersect.RightWhereRising`,
  `Intersect.FallMisses`).

## Left out

- The hardware checksum instructions and the choice between them and the tables: the scalar path is modelled.
- The compressor: a pair of inverse functions, with nothing said of its output but its length.
- Byte sources, memory maps, prefetching and residency hints: a source is an immutable sequence of sequences of bytes.
- The reader's reuse of one decode buffer between reads (`dec_at`): each read decodes into a buffer of its own.
- Memory order of the atomic operations: the racing fill is sequentially consistent, as its one-word slots allow.
- FlatEncode.WriteRecords: threads write whole records in an arbitrary order covering every rank, so two writes to different records never interleave byte by byte; their regions are disjoint.
- Machine words as counters: sums of lengths are unbounded, and sections are taken to be shorter than 2^64 bytes.
- Varint.ReadUvarint: the groups are added, not or-ed; they occupy disjoint bits.
- HashFill.RaceDenotes: a finished state may order the slots of colliding keys otherwise than the plain fill does; the maps are equal.
- Damaged records: the fast and the general scan report damage differently, so the scan is proved on well-formed sections; the fence alone is proved under arbitrary bytes.
- BlobVerify.Reader.ReadAll: the source does not change between checks.
- SparseWalk.DictionaryWalk: for a fence that is the writer's and records in key order; after updates in place the span is wide, and only `SparseWalk.RecordSpan` speaks of it.
- BlobRead.WithExtent: for extents inside blocks whose checksums match; what a mismatch reports is `BlobVerify`'s.
- IntersectRead.IntersectFixed: for extents that decode; the lookup before it is `FlatHolds.LookupFull`.
- Counts from extents (`fixed_count`, `count`, `scan_counts`, `dictionary_counts`): sums of fields the round trip already covers, or checks the code calls no proof.
- Checksums switched off by the environment when writing: a table is taken to be written with them on.
- The superblock, its extension and the choice of the newest: decoding of fixed fields.
- The in-place checkpoint (`spare_dir`, `reserve`, `set_bump`, `encode_record`, `decode_record`): it has no caller.
- The library sort in `merge_ranges`: modelled by insertion.
- ReserveBound.FromTotals: checked additions that would overflow a word are unbounded.
- The histogram's mean, and its percentile from a fraction: a percentile is taken in parts per million.
- The engine above: its log, memory table, merges and pages.
