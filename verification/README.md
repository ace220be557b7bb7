# termux-x11: block compression, session wrapping and buffer ownership

A model in Dafny of three parts of termux-x11 and proofs of what they are for.

* **bzip2** (`termux-x11/src/main/cpp/bzip2`), which compresses and decompresses data in blocks. The compressor
  collects runs, sorts all rotations of a block (with a budget, and a fallback when it is spent), codes the last
  column by move-to-front and runs, chooses up to six prefix codes and writes bits. The decompressor is a state
  machine that can stop at any bit of input and any byte of output, in a fast and a small-memory form. Proved: for
  all data, all ways of calling both sides and both forms, what comes out is what went in; for all byte sequences,
  valid or not, decoding stays in bounds and its outcome does not depend on how input and output are cut up; the code
  lengths are those of cheapest prefix codes, and the checksum is the remainder by its polynomial.
* **libxdmcp** (`termux-x11/src/main/cpp/libxdmcp`), which wraps session keys with a chained block cipher. Proved:
  unwrapping undoes wrapping for every message, key schedule and table, in place or not, and the bits go where
  FIPS 46-3 sends them.
* **lorie** (`termux-x11/src/main/cpp/lorie`), in which the GUI thread hands graphic buffers to a renderer thread.
  Proved: which buffers are freed when, in every interleaving, and exactly what the GUI thread must keep to.

How the modules hang together:

| part | modules |
|---|---|
| rotations and sorting | Permutations, Counting, Rotations, QuickSort, FallbackQSort, FallbackSort, MainQSort, Buckets, PointerScan, ScanOutcome, MainSort, BlockSort |
| the transform and its inverse | BurrowsWheeler, InverseBwt, SmallLinks, Walker, Randomise |
| symbols and codes | Alphabet, Mtf, MtfEncoder, MtfWindow, HuffmanHeap, HuffmanTree, HuffmanOptimal, CodeLengths, Canonical, CodeTables |
| bits and the stream format | Bits, BitIO, Format, Sender, Space, Parser, FormatParsed, TablesParsed, BlockParsed, Refusals |
| runs, checksums, calls | RunLength, Crc, CrcSerial, RunBuffer, BlockEncoder, Archive, Compressor, DecodeArrays, SymbolLoop, StreamReader, BlockOutput, Decoding, Decompressor, RoundTrip |
| key wrapping | Des, DesBits, Chaining |
| buffers | Ownership, IntrusiveList, Renderer |

`Decode` in module Decoding is the meaning of a stream: a function from all its bits to the bytes it stands for and
how it ends. Compressor and decompressor are each proved against it, and `Restored` and `RoundTrip` join them.

Two devices recur in the proofs. A class keeps what it has written or not yet read in a ghost field that its
`Valid()` ties to the real buffer. An invariant may be stated for the one value it is about
(`forall q :: q == x ==> ...`); mentioning the trigger on that value opens it.

## Model

| member | source | states |
|---|---|---|
| `RoundTrip.Restored` | termux-x11/src/main/cpp/bzip2/bzlib.c:808-858 | Any data, compressed with any positive amounts of room per call at any level and work factor, comes back byte for byte from either decompressor, which returns BZ_STREAM_END. |
| `RoundTrip.RoundTrip` | termux-x11/src/main/cpp/bzip2/bzlib.c:407-464 | Any sequence of compress calls (run, flush and finish in any order, any windows) followed by any cutting of the stream and of the output room: once the compressor ended, the decoder never reports an error, has always written a prefix of the data, writes exactly the data when it ends, and ends when all input is taken and room is left. |
| `RoundTrip.CompressAll` | termux-x11/src/main/cpp/bzip2/bzlib.c:407-464 | Whatever calls are made, if one returned BZ_STREAM_END then the bytes handed out decode to exactly the bytes consumed; they begin with "BZh" and the level, and the stream of no data is exactly its fourteen bytes. |
| `RoundTrip.CompressFully` | termux-x11/src/main/cpp/bzip2/bzlib.c:407-464 | Every data sequence has a stream: finishing with any positive rooms terminates with bytes that decode to the data. |
| `RoundTrip.FinishAll` | termux-x11/src/main/cpp/bzip2/bzlib.c:452-461 | Repeated BZ_FINISH calls with room reach BZ_STREAM_END: the remaining input, then the pending block, then its bytes run out. |
| `RoundTrip.FlushAll` | termux-x11/src/main/cpp/bzip2/bzlib.c:442-450 | Repeated BZ_FLUSH calls with any positive rooms come to an end with all data consumed, and everything handed out since the stream began, with the at most 32 bits that stay in the writer, decodes to all data consumed and waits for more. |
| `RoundTrip.FlushedDecodes` | termux-x11/src/main/cpp/bzip2/bzlib.c:442-450 | After any flush that is over, at any point of any stream, the bytes handed out and the bits still in the writer decode to exactly the bytes consumed. |
| `RoundTrip.StreamBytes` | termux-x11/src/main/cpp/bzip2/compress.c:602-667 | Every finished stream begins with 42 5A 68 and 30 + level; the stream of nothing is these, 17 72 45 38 50 90 and four zeros. |
| `RoundTrip.DecompressAll` | termux-x11/src/main/cpp/bzip2/bzlib.c:808-858 | For every byte sequence, valid or not: the output is a prefix of the stream's meaning however input and room are cut; end of stream and each error are reported exactly when they are that meaning; BZ_OK with nothing left and room to spare means the input is incomplete. |
| `RoundTrip.DecompressOnce` | termux-x11/src/main/cpp/bzip2/bzlib.c:808-858 | One call that is given the whole stream and does not fill its room reports the whole meaning. |
| `RoundTrip.SmallAsFast` | termux-x11/src/main/cpp/bzip2/bzlib.c:705-804 | The small-memory decompressor agrees with the fast one on every input: outputs are prefixes of each other, and final results are equal, with different cuts on each side. |
| `Compressor.Compressor.Compress` | termux-x11/src/main/cpp/bzip2/bzlib.c:407-464 | Each call takes a prefix of the window and hands out at most the room; all consumed bytes are accounted for and all bytes sent are those of the archive. A block is closed only when it holds 100000 * level - 19 bytes or by a flush or finish. BZ_FLUSH_OK and BZ_FINISH_OK mean the room is used up; with room, a run with input and a flush or finish that goes on as announced never fail and come closer to their end. A flush that returns BZ_RUN_OK has consumed and compressed everything and handed out every whole byte. Modes and codes are those of the documented table (with a flush or finish that can be completed at once completed at once), and a call that reports an error takes and hands out nothing. |
| `Compressor.Compressor.HandleCompress` | termux-x11/src/main/cpp/bzip2/bzlib.c:360-403 | No byte is lost between window and block; no progress means nothing was taken or handed out, and bytes still to be handed out remain when stuck in output; progress while finishing decreases a measure. |
| `Compressor.Compressor.CopyInput` | termux-x11/src/main/cpp/bzip2/bzlib.c:288-329 | Bytes leave the window in order into the run buffer until the block is full, the window is empty or the announced input is used up; progress is reported exactly when a byte was taken. |
| `Compressor.Compressor.CopyOutput` | termux-x11/src/main/cpp/bzip2/bzlib.c:333-356 | Stops only when the block is handed out or the room is used up; bytes go out in order. |
| `Compressor.Compressor.Finish` | termux-x11/src/main/cpp/bzip2/bzlib.c:452-461 | BZ_SEQUENCE_ERROR only if there was no room; otherwise the stream ends or is closer to its end. |
| `RunBuffer.RunBuffer.AddChar` | termux-x11/src/main/cpp/bzip2/bzlib.c:260-284 | Appends one byte to the text the buffer stands for; the stored bytes, the checksum and the used-byte flags stay those of the recorded runs; at most 5 stored bytes are added. |
| `RunBuffer.RunBuffer.AddPair` | termux-x11/src/main/cpp/bzip2/bzlib.c:215-247 | The pending run becomes the last recorded run and the text is unchanged; 1 to 5 bytes are stored, with the count byte flagged as used. |
| `RunBuffer.RunBuffer.Flush` | termux-x11/src/main/cpp/bzip2/bzlib.c:251-256 | No run is pending afterwards and the text is unchanged. |
| `RunLength.RoundTripRuns` | termux-x11/src/main/cpp/bzip2/bzlib.c:535-682 | Undoing the run-length code of the stored bytes, whatever two bytes follow them in look-ahead, gives the expanded runs with no corruption. |
| `Archive.Archive.CompressBlock` | termux-x11/src/main/cpp/bzip2/compress.c:602-667 | The stream of all blocks so far, with header, block magic and checksums and, at the end, trailer and padding, is extended by exactly this block's text; the block and its compressed bytes fit the memory they share. |
| `Archive.Archive.NextBlock` | termux-x11/src/main/cpp/bzip2/bzlib.c:116-126 | Bytes already handed out and the bits still in the buffer stay one continuous stream. |
| `Archive.StreamDecodes` | termux-x11/src/main/cpp/bzip2/compress.c:602-667 | A stream of any number of encoded blocks decodes to their texts in order, with every block checksum and the combined one accepted. |
| `Archive.BlockStarts` | termux-x11/src/main/cpp/bzip2/compress.c:631-636 | Each block begins with 31 41 59 26 53 59 and its own checksum, most significant byte first. |
| `Archive.StreamFrame` | termux-x11/src/main/cpp/bzip2/compress.c:622-665 | A stream is the four header bytes, its blocks, 17 72 45 38 50 90, the combined checksum and the padding, and nothing else. |
| `Archive.PartsCrcIs` | termux-x11/src/main/cpp/bzip2/compress.c:607-608 | The checksum in the trailer is what the checksums of the blocks, as written before each, combine to in order. |
| `Archive.OpenDecodes` | termux-x11/src/main/cpp/bzip2/compress.c:602-667 | Without its trailer a stream decodes to the texts of all its blocks and waits for more. |
| `Space.MostIsEnough` | termux-x11/src/main/cpp/bzip2/compress.c:238-598 | A bound on the bits of any well-formed block in terms of the bytes it was made from. |
| `Space.EnoughSpace` | termux-x11/src/main/cpp/bzip2/bzlib.c:176-179 | The compressed block, written into arr2 behind the block itself, never outgrows the array. |
| `BlockEncoder.Encode` | termux-x11/src/main/cpp/bzip2/compress.c:602-667 | Sorting, move-to-front, table choice and checksum together give a block that encodes exactly the given runs, with the tables and selectors that four passes over its symbols arrive at. |
| `BlockEncoder.Transform` | termux-x11/src/main/cpp/bzip2/compress.c:604-653 | The symbols are those of the last column of the sorted rotations, and origPtr is the place of rotation 0. |
| `CodeTables.Choose` | termux-x11/src/main/cpp/bzip2/compress.c:271-458 | Two to six tables by the number of symbols, each a complete prefix code of lengths 1 to 17; one selector for each fifty symbols, each naming a table, at most 18002 of them (internal errors 3002, 3003). They come from an initial partition of the alphabet by exactly four passes, each giving every group a table that is cheapest for it under the lengths before the pass, and every table lengths that no prefix code beats for the symbols it then codes (after halving, where that code would be too long). |
| `CodeTables.SelectAll` | termux-x11/src/main/cpp/bzip2/compress.c:322-435 | One pass gives every group of fifty a table no other table beats, and counts exactly how often each symbol is used with each table. |
| `CodeTables.Cheapest` | termux-x11/src/main/cpp/bzip2/compress.c:352-405 | The table chosen for a group codes it in the fewest bits; no 16-bit cost overflows. |
| `CodeTables.NewTables` | termux-x11/src/main/cpp/bzip2/compress.c:444-452 | Every table gets a complete code of lengths 1 to 17, and one that is cheapest for its frequencies or for these halved as often as was needed to keep within 17 bits. |
| `CodeTables.InitialTables` | termux-x11/src/main/cpp/bzip2/compress.c:280-316 | The initial tables cut the alphabet, from the last table to the first, into consecutive stretches that are free of cost for their own table only. |
| `CodeTables.InitialGroup` | termux-x11/src/main/cpp/bzip2/compress.c:287-300 | A stretch ends at the first symbol with which it has its share of the remaining symbols, or at the last symbol, less one symbol where the source steps back. |
| `Sender.CodeSelectors` | termux-x11/src/main/cpp/bzip2/compress.c:461-478 | The in-place list rotation computes the move-to-front positions of the selectors. |
| `Sender.SendMapping` | termux-x11/src/main/cpp/bzip2/compress.c:494-515 | Writes the two-level usage map of the byte values. |
| `Sender.SendTables` | termux-x11/src/main/cpp/bzip2/compress.c:528-539 | Writes every table as first length and single steps up and down. |
| `Sender.SendSymbols` | termux-x11/src/main/cpp/bzip2/compress.c:544-594 | Writes the code of every symbol under its group's table and uses up exactly the selectors (internal errors 3006, 3007). |
| `Sender.SendBlock` | termux-x11/src/main/cpp/bzip2/compress.c:238-598 | All fields of a block are written, in order, and nothing else: exactly the bits the format prescribes. |
| `BitIO.BitWriter.Put` | termux-x11/src/main/cpp/bzip2/compress.c:58-78 | Appends exactly the n bits to the stream; whole bytes have left the 32-bit buffer in order. |
| `BitIO.BitWriter.Finish` | termux-x11/src/main/cpp/bzip2/compress.c:45-54 | The bytes are the bits written, padded with fewer than eight zeros. |
| `BlockSort.Sort` | termux-x11/src/main/cpp/bzip2/blocksort.c:1031-1089 | For every block, level and work factor, the pointers sort all rotations, the block is unchanged and origPtr is the place of rotation 0 (internal error 1003); a spent budget only changes which sorter finishes. |
| `MainSort.Sort` | termux-x11/src/main/cpp/bzip2/blocksort.c:750-1011 | Unless the budget runs out, all rotations of the block are sorted, though most buckets are never compared but dealt out by the pointer scans; the block is unchanged (internal errors 1002, 1006, 1007). |
| `MainSort.DoBig` | termux-x11/src/main/cpp/bzip2/blocksort.c:868-946 | Completing one big bucket keeps the order of all finished buckets and leaves all its own buckets and all buckets [c, ss] sorted and flagged. |
| `MainSort.PointerScans` | termux-x11/src/main/cpp/bzip2/blocksort.c:911-944 | The two scans, in place, leave every unfinished bucket [c, ss] sorted and every other bucket untouched. |
| `MainSort.ScansMeet` | termux-x11/src/main/cpp/bzip2/blocksort.c:923-944 | The left and right scan of a big bucket meet, or the whole block is one byte (internal error 1007). |
| `MainSort.CacheBig` | termux-x11/src/main/cpp/bzip2/blocksort.c:948-1004 | Recording a finished big bucket in the quadrants, with its overshoot copy, keeps them consistent with the order of the rotations. |
| `MainSort.UpdateQuadrant` | termux-x11/src/main/cpp/bzip2/blocksort.c:989-1004 | Quadrants of the bucket are its places shifted to fit 16 bits (internal error 1002); others are unchanged and the overshoot area stays a copy. |
| `MainSort.RunningOrder` | termux-x11/src/main/cpp/bzip2/blocksort.c:832-860 | The Shell sort with increments 364 to 1 gives a permutation of the big buckets, least full first. |
| `MainSort.SortSmall` | termux-x11/src/main/cpp/bzip2/blocksort.c:886-907 | A bucket is sorted unless flagged, then flagged, and no flag is lost. |
| `MainSort.SetUp` | termux-x11/src/main/cpp/bzip2/blocksort.c:769-830 | The two-byte radix sort puts every rotation in its bucket, mirrors the block into the overshoot area and clears the quadrants. |
| `PointerScan.Scan` | termux-x11/src/main/cpp/bzip2/blocksort.c:923-934 | Scanning a queue that grows while it is read deals each predecessor to the end of its bucket's lane, in order, and touches nothing else. |
| `PointerScan.LeftBeforeRight` | termux-x11/src/main/cpp/bzip2/blocksort.c:911-935 | Every rotation the left scan reaches comes before every rotation the right scan reaches. |
| `ScanOutcome.DealtInBuckets` | termux-x11/src/main/cpp/bzip2/blocksort.c:911-944 | After both scans every rotation is still in its own bucket, once. |
| `Buckets.AllSorted` | termux-x11/src/main/cpp/bzip2/blocksort.c:750-1011 | If every two-byte bucket is sorted then all rotations are. |
| `MainQSort.QSort3` | termux-x11/src/main/cpp/bzip2/blocksort.c:620-717 | Sorts a range of rotations that agree on d bytes, unless the budget runs out; only permutes the range; terminates; the stack of 100 ranges never overflows (internal error 1001). |
| `MainQSort.StackLighter` | termux-x11/src/main/cpp/bzip2/blocksort.c:644-716 | Pushing the parts by size keeps the stack logarithmic and lowers the work left. |
| `MainQSort.SimpleSort` | termux-x11/src/main/cpp/bzip2/blocksort.c:484-555 | The Shell sort with its increment table sorts the range, or the budget is gone; it only permutes. |
| `MainQSort.GtU` | termux-x11/src/main/cpp/bzip2/blocksort.c:345-469 | The comparison by bytes and cached quadrants, with wrap-around, answers as the order of the rotations does, for any consistent cache. |
| `QuickSort.Partition` | termux-x11/src/main/cpp/bzip2/blocksort.c:132-170 | The fat-pivot partition leaves smaller, equal and larger keys in this order, the middle part not empty. |
| `FallbackSort.Sort` | termux-x11/src/main/cpp/bzip2/blocksort.c:211-329 | Sorts all rotations of every block by doubling, terminates, and restores the block whose memory held the class numbers (internal error 1005). |
| `FallbackSort.Pass` | termux-x11/src/main/cpp/bzip2/blocksort.c:261-313 | One pass turns buckets of rotations that agree on h bytes into buckets that agree on 2h, and finds none to refine only when the order is final. |
| `FallbackSort.Doubled` | termux-x11/src/main/cpp/bzip2/blocksort.c:266-305 | Comparing by bucket and then by class number h places on is comparing 2h bytes. |
| `FallbackSort.NextBucket` | termux-x11/src/main/cpp/bzip2/blocksort.c:277-292 | Word-at-a-time scanning of the header bits, with sentinels, finds the next bucket of at least two. |
| `FallbackSort.RestoreBlock` | termux-x11/src/main/cpp/bzip2/blocksort.c:315-328 | The block is rebuilt from the sorted pointers and the byte counts alone (internal error 1005). |
| `FallbackQSort.QSort3` | termux-x11/src/main/cpp/bzip2/blocksort.c:92-180 | Sorts a range by class number and only permutes it; terminates; the stack of 100 ranges never overflows (internal error 1004). |
| `FallbackQSort.SimpleSort` | termux-x11/src/main/cpp/bzip2/blocksort.c:30-59 | Two insertion passes, by 4 and by 1, sort the range and only permute it. |
| `BurrowsWheeler.UnsortLastColumn` | termux-x11/src/main/cpp/bzip2/decompress.c:500-582 | The transform is invertible from last column and origPtr, for every block and every way a sorter breaks ties between equal rotations. |
| `BurrowsWheeler.LastColumnUnique` | termux-x11/src/main/cpp/bzip2/blocksort.c:1031-1089 | All correct sorters give the same column, so switching to the fallback never changes the stream. |
| `InverseBwt.TablesSane` | termux-x11/src/main/cpp/bzip2/decompress.c:500-522 | The three consistency checks on unzftab and cftab pass for every decoded column. |
| `InverseBwt.BuildFast` | termux-x11/src/main/cpp/bzip2/decompress.c:565-570 | The links are packed above the bytes they are computed from, in one array, without disturbing either. |
| `SmallLinks.SetLink` | termux-x11/src/main/cpp/bzip2/bzlib_private.h:458-473 | Setting a 20-bit link, in 16 bits and half a byte, changes no other link. |
| `SmallLinks.Reverse` | termux-x11/src/main/cpp/bzip2/decompress.c:542-551 | Reversing the cycle in place turns the link of every place on it round. |
| `SmallLinks.IndexIntoF` | termux-x11/src/main/cpp/bzip2/bzlib.c:686-698 | The binary search finds the byte whose stretch of the sorted column holds the place. |
| `Walker.Walker.Get` | termux-x11/src/main/cpp/bzip2/bzlib_private.h:444-479 | Both table forms step to the same next byte of the text. |
| `Decoding.TextIsBlock` | termux-x11/src/main/cpp/bzip2/bzlib.c:535-682 | The text read off the last column of a sorted block begins with the block itself. |
| `MtfEncoder.Generate` | termux-x11/src/main/cpp/bzip2/compress.c:119-231 | The symbols of the last column are written over the pointers they are computed from, never overtaking them; they equal the move-to-front and run coding, and the counts are theirs. |
| `MtfEncoder.Rotate` | termux-x11/src/main/cpp/bzip2/compress.c:189-207 | The rotation loop finds the byte and moves it to the front in one sweep. |
| `MtfEncoder.PutRun` | termux-x11/src/main/cpp/bzip2/compress.c:174-188 | A run is written in bijective base 2, in at most as many cells as it is long. |
| `Mtf.RoundTrip` | termux-x11/src/main/cpp/bzip2/decompress.c:378-493 | Decoding the symbols of any column gives the column back, through run digits, guards and move-to-front. |
| `Mtf.SymbolsShape` | termux-x11/src/main/cpp/bzip2/compress.c:119-231 | Symbols are in range, the end marker comes once, last, and there is at least one (internal error 3001) and at most one more than bytes. |
| `MtfWindow.Window.Take` | termux-x11/src/main/cpp/bzip2/decompress.c:429-481 | Sixteen sections sliding through a 4096-byte array behave as one list of 256 bytes: the byte at the position comes to the front and all others keep their order, also across a rebuild. |
| `MtfWindow.Window.TakeByte` | termux-x11/src/main/cpp/bzip2/decompress.c:429-481 | On a list of fewer than 256 used bytes the same window is move-to-front of those bytes. |
| `MtfWindow.Window.Rebuild` | termux-x11/src/main/cpp/bzip2/decompress.c:469-478 | Moving all sections to the top of the array changes no byte of the list. |
| `Alphabet.MakeMapsE` | termux-x11/src/main/cpp/bzip2/compress.c:105-115 | Each used byte is mapped to its rank, and the rank back to the byte. |
| `Alphabet.MakeMapsD` | termux-x11/src/main/cpp/bzip2/decompress.c:26-36 | The table lists exactly the used bytes in order. |
| `CodeLengths.MakeCodeLengths` | termux-x11/src/main/cpp/bzip2/huffman.c:63-148 | Terminates, for all frequencies whose total, zeros counted as ones, is below 2^23, so that a weight fits 32 bits: every length is in 1 to maxLen and the Kraft sum is exactly 1, a complete prefix code. No lengths with Kraft sum at most 1 cost less for the weights of the last round: these are the frequencies, zeros counted as ones, halved once for every earlier round, and in each of those rounds an optimal code had a length over maxLen. |
| `CodeLengths.CheapOrOverlong` | termux-x11/src/main/cpp/bzip2/huffman.c:79-147 | The lengths are optimal for the given frequencies themselves, zeros counted as ones, unless some optimal code for them is too long. |
| `CodeLengths.LongerIsLighter` | termux-x11/src/main/cpp/bzip2/huffman.c:84-147 | Of two symbols the one with the longer code is not the heavier one in the last round. |
| `HuffmanOptimal.TreeOptimal` | termux-x11/src/main/cpp/bzip2/huffman.c:98-121 | The depths of a tree built by merging two lightest roots cost no more than any lengths that satisfy Kraft's inequality, within any bound on the lengths. |
| `HuffmanOptimal.AtLeast` | termux-x11/src/main/cpp/bzip2/huffman.c:98-111 | At every stage of the merging, any lengths for the roots that fit the code space cost at least the weights of the nodes still to be made. |
| `HuffmanOptimal.Deepest` | termux-x11/src/main/cpp/bzip2/huffman.c:101-102 | The two lightest roots can be given the two longest codes without taking more space or costing more. |
| `HuffmanOptimal.HeavierNotLonger` | termux-x11/src/main/cpp/bzip2/huffman.c:98-121 | In an optimal code a strictly heavier symbol never has the longer code. |
| `CodeLengths.StillMerging` | termux-x11/src/main/cpp/bzip2/huffman.c:100-111 | Every merge, past ones included, joined two roots than which no other root was lighter, and its weight is their sum. |
| `CodeLengths.HalvedOrder` | termux-x11/src/main/cpp/bzip2/huffman.c:142-146 | Any number of halvings keeps the order of the frequencies. |
| `CodeLengths.GrowTree` | termux-x11/src/main/cpp/bzip2/huffman.c:84-112 | Merging the two lightest trees through the heap yields one tree over all symbols with the right total weight and heights. |
| `CodeLengths.TooLongIsHeavy` | termux-x11/src/main/cpp/bzip2/huffman.c:114-147 | A depth over 17 needs Fibonacci-like weights, so some frequency is at least 3 and scaling makes progress. |
| `CodeLengths.Scale` | termux-x11/src/main/cpp/bzip2/huffman.c:142-146 | Each weight becomes one more than half of itself: none drops to 0, and the total is lower when some frequency is at least 3. |
| `CodeLengths.SetWeights` | termux-x11/src/main/cpp/bzip2/huffman.c:79-80 | The weights are the frequencies, zeros counted as ones, moved past the byte of the height. |
| `HuffmanTree.HeightBound` | termux-x11/src/main/cpp/bzip2/huffman.c:25-31 | Heights stay below 33 for all such totals, so the height byte never carries into the weight. |
| `HuffmanTree.KraftExact` | termux-x11/src/main/cpp/bzip2/huffman.c:114-121 | The depths of any single binary tree have Kraft sum exactly 1. |
| `HuffmanHeap.TakeLeast` | termux-x11/src/main/cpp/bzip2/huffman.c:101-102 | Takes out a lightest node, keeps the heap order and loses no other node. |
| `HuffmanHeap.Insert` | termux-x11/src/main/cpp/bzip2/huffman.c:33-42 | Adds the node, keeps the heap order and loses none. |
| `Canonical.PrefixFree` | termux-x11/src/main/cpp/bzip2/huffman.c:152-166 | No code is a prefix of another symbol's code, for all lengths with Kraft sum at most 1. |
| `Canonical.CodesFit` | termux-x11/src/main/cpp/bzip2/huffman.c:152-166 | Every code fits its length. |
| `Canonical.AssignCodes` | termux-x11/src/main/cpp/bzip2/huffman.c:152-166 | The loop assigns the canonical codes: first code of the length plus rank among symbols of that length. |
| `Canonical.CreateDecodeTables` | termux-x11/src/main/cpp/bzip2/huffman.c:170-200 | limit, base and perm hold, for all lengths, the last code, the offset and the symbols in code order. |
| `Canonical.DecodeStep` | termux-x11/src/main/cpp/bzip2/decompress.c:90-101 | For any lengths, complete or not: bits not above limit index perm in bounds and name the symbol with exactly this code; otherwise one more bit keeps the bits above all shorter codes. |
| `Decompressor.Decompressor.Decompress` | termux-x11/src/main/cpp/bzip2/bzlib.c:808-858 | However input arrives and output is taken, what was written followed by what is still to come is the meaning of the stream; the code says which case holds; after the end a call gives BZ_SEQUENCE_ERROR. |
| `Decompressor.Decompressor.Supply` | termux-x11/src/main/cpp/bzip2/decompress.c:43-65 | Supplying more input changes nothing about the meaning of the stream. |
| `StreamReader.StreamReader.Parse` | termux-x11/src/main/cpp/bzip2/decompress.c:106-647 | Reading on through fields and symbols, with the real tables, window and counters, comes to the state the machine on values comes to, with the same bits left; it stops only at a complete block, the end, an error or for want of input. |
| `StreamReader.StreamReader.ReadField` | termux-x11/src/main/cpp/bzip2/decompress.c:43-65 | A field is taken only when all its bits are there; running out of input in the middle loses nothing; after the last table the symbol reader stands for the first symbol of the block. |
| `StreamReader.StreamReader.ReadSymbols` | termux-x11/src/main/cpp/bzip2/decompress.c:357-493 | The symbols of a block, as far as the input goes: complete with the column in its array, broken off as corrupt, or suspended with nothing lost. |
| `SymbolLoop.SymbolReader.Read` | termux-x11/src/main/cpp/bzip2/decompress.c:357-493 | The loop over GET_MTF_VAL with its group counters, limit, base and perm arrays, run digits, window and column, stopped and resumed at any bit, does what the machine on values does for all bit strings. |
| `SymbolLoop.SymbolReader.NextSymbol` | termux-x11/src/main/cpp/bzip2/decompress.c:74-88 | After fifty symbols the next selector names the table, and running out of selectors is an error. |
| `SymbolLoop.StartSymbols` | termux-x11/src/main/cpp/bzip2/decompress.c:337-376 | The tables of all groups and the MTF init stand for the machine at the first symbol of the block. |
| `BitIO.BitReader.Get` | termux-x11/src/main/cpp/bzip2/decompress.c:43-65 | Delivers the next n bits exactly when there are n; else all input is in the buffer and nothing is lost. |
| `BlockOutput.BlockOutput.Emit` | termux-x11/src/main/cpp/bzip2/bzlib.c:535-682 | Any amount of room: the bytes are the next ones of the block's expansion, the checksum covers them, and it stops short only at the end of the block or at corruption. |
| `BlockOutput.BlockOutput.StartFast` | termux-x11/src/main/cpp/bzip2/bzlib.c:636-661 | The fast decompressor's order of tests, which looks at the next byte before it looks for the end, starts the same runs. |
| `Parser.ExecAppend` | termux-x11/src/main/cpp/bzip2/decompress.c:106-136 | Suspending at any bit and resuming with more is the same as having had all bits at once. |
| `Parser.StepInv` | termux-x11/src/main/cpp/bzip2/decompress.c:195-613 | Every field, whatever its value, leads to a state whose indices, table sizes and counts are in bounds, or to an error. |
| `BlockParsed.CodeParsed` | termux-x11/src/main/cpp/bzip2/decompress.c:74-102 | Any symbol's code, read bit by bit from any group position, leads to that symbol. |
| `BlockParsed.SymbolsParsed` | termux-x11/src/main/cpp/bzip2/decompress.c:378-493 | All symbols of a block, with the table changes every fifty, lead to the decoded column. |
| `BlockParsed.BlockRead` | termux-x11/src/main/cpp/bzip2/decompress.c:220-582 | The bits of any well-formed block are read back to its column, origPtr and checksum. |
| `FormatParsed.TrailerParsed` | termux-x11/src/main/cpp/bzip2/decompress.c:588-612 | The trailer is read back with its combined checksum. |
| `TablesParsed.MappingParsed` | termux-x11/src/main/cpp/bzip2/decompress.c:266-284 | The two-level usage map is read back to the same used bytes. |
| `TablesParsed.SelectorsBack` | termux-x11/src/main/cpp/bzip2/decompress.c:308-320 | Undoing the move-to-front of the selectors gives them back. |
| `TablesParsed.CodingParsed` | termux-x11/src/main/cpp/bzip2/decompress.c:322-335 | The delta-coded tables are read back to the same lengths. |
| `Decoding.BlockDecodes` | termux-x11/src/main/cpp/bzip2/bzlib.c:808-858 | An encoded block decodes to the bytes of its runs and its checksum is accepted, whatever follows. |
| `Decoding.AfterSome` | termux-x11/src/main/cpp/bzip2/bzlib.c:817-840 | Handing out part of a block and continuing later gives the same output, checksum verdict and continuation. |
| `Crc.OverConcat` | termux-x11/src/main/cpp/bzip2/bzlib_private.h:157-172 | The checksum of consecutive pieces is that of the whole. |
| `CrcSerial.ChecksumIsSerial` | termux-x11/src/main/cpp/bzip2/bzlib_private.h:167-172 | The table-driven checksum of any bytes is division of their bits, most significant first, by the polynomial 0x04c11db7, when the table is the one that polynomial generates. |
| `CrcSerial.UpdatedIsSerial` | termux-x11/src/main/cpp/bzip2/bzlib_private.h:167-172 | One table step is eight steps of the shift register. |
| `CrcSerial.EntryDouble` | termux-x11/src/main/cpp/bzip2/crctable.c:34-104 | The generated table: entry 2i is entry i moved on by one bit, entry 2i + 1 differs from it by the polynomial. |
| `Crc.CombineBit` | termux-x11/src/main/cpp/bzip2/compress.c:607-608 | Bit i of a combination is bit i - 1, round the end, of the checksum so far plus bit i of the block's. |
| `Crc.CombineApart` | termux-x11/src/main/cpp/bzip2/bzlib.c:832-835 | Combining loses nothing: with either argument fixed, different values of the other give different results. |
| `Crc.BlockChanged` | termux-x11/src/main/cpp/bzip2/bzlib.c:832-835 | A stream in which one block has another checksum has another combined checksum, whatever blocks come before and after. |
| `Crc.BlockDropped` | termux-x11/src/main/cpp/bzip2/bzlib.c:832-835 | Leaving out a block goes unnoticed by the combined checksum if and only if its checksum is the one so far plus itself rotated. |
| `Crc.FirstDropped` | termux-x11/src/main/cpp/bzip2/bzlib.c:832-835 | Leaving out the first block is noticed whenever its checksum is not 0. |
| `Crc.FinalBit` | termux-x11/src/main/cpp/bzip2/bzlib_private.h:157-165 | A checksum starts with all bits set and ends with all bits inverted. |
| `Randomise.ChangedIff` | termux-x11/src/main/cpp/bzip2/bzlib_private.h:133-150 | Byte i of a randomised block is changed exactly when a gap of at least two ends two places further on, the table of gaps being read round and round. |
| `Randomise.UnmaskTwice` | termux-x11/src/main/cpp/bzip2/bzlib_private.h:133-150 | The mask is its own inverse. |
| `Refusals.SignatureExact` | termux-x11/src/main/cpp/bzip2/decompress.c:197-209 | For every byte sequence: BZ_DATA_ERROR_MAGIC is the outcome if and only if one of the first four bytes is not that of a stream. |
| `Refusals.SignatureChoice` | termux-x11/src/main/cpp/bzip2/decompress.c:222-235 | Where a block may begin, the six bytes of a block lead into it, those of the end to the trailer, and any others are BZ_DATA_ERROR. |
| `DecodeArrays.ReadCode` | termux-x11/src/main/cpp/bzip2/decompress.c:90-101 | The comparison with limit and the index into perm by base decide as the canonical code does. |
| `DecodeArrays.MakeTables` | termux-x11/src/main/cpp/bzip2/decompress.c:337-353 | The search for the shortest and longest length and the table construction give tables for exactly these lengths. |
| `DecodeArrays.SymbolUnit.Take` | termux-x11/src/main/cpp/bzip2/decompress.c:385-493 | One symbol step on the real window, maps and counters does what the list-level decoder does: same runs, guards, column and errors. |
| `DecodeArrays.SymbolUnit.Decide` | termux-x11/src/main/cpp/bzip2/decompress.c:74-102 | Reading a code off the arrays and taking its symbol through the window is the decision of the machine on values: the outcome is that of the canonical code, more bits and the next symbol agree, and it fails exactly where the unit breaks off, no selector is left or origPtr is not in the block. |
| `Chaining.WrapUnwrap` | termux-x11/src/main/cpp/libxdmcp/Unwrap.c:54-88 | Unwrapping a wrapped message of any length gives it back, filled up with zeros, for every key schedule and table, also in one shared buffer. |
| `Chaining.Wrap` | termux-x11/src/main/cpp/libxdmcp/Wrap.c:48-85 | The output is the chained encipherment of the zero-filled message, and bytes beyond it are untouched, also when input and output are the same array. |
| `Chaining.Unwrap` | termux-x11/src/main/cpp/libxdmcp/Unwrap.c:54-88 | Every whole block is deciphered and unchained with the two saved blocks, also in place; a rest is left alone. |
| `Chaining.ChainUndone` | termux-x11/src/main/cpp/libxdmcp/Unwrap.c:54-88 | Unchaining undoes chaining for every message and every invertible cipher. |
| `Chaining.UnchainUndone` | termux-x11/src/main/cpp/libxdmcp/Wrap.c:48-85 | Chaining undoes unchaining, so every ciphertext is the wrapping of one message. |
| `Chaining.DoIt` | termux-x11/src/main/cpp/libxdmcp/Wraphelp.c:443-495 | Two half-rounds per loop turn, with the keys up or down, are sixteen rounds of a Feistel network between the permutations; the round function is the one of `DesBits.MixedIs`. |
| `Chaining.CodingIs` | termux-x11/src/main/cpp/libxdmcp/Wraphelp.c:443-495 | The cipher as FIPS 46-3 defines it: from the halves of the permuted block each next half follows from the two before it with key words 2i and 2i + 1, or backwards, sixteen times, and the last two exchanged are the permuted output; for every block, schedule and table. |
| `Chaining.RungIs` | termux-x11/src/main/cpp/libxdmcp/Wraphelp.c:428-441 | A half is the one before last plus what the round function makes of the last and the key. |
| `Chaining.ChainedAt` | termux-x11/src/main/cpp/libxdmcp/Wrap.c:48-85 | Every block of the output is the encipherment of its block of the message plus the block of output before it. |
| `Chaining.UnchainedAt` | termux-x11/src/main/cpp/libxdmcp/Unwrap.c:54-88 | Every block of the output is the decipherment of its block plus the block of input before it. |
| `DesBits.MixedIs` | termux-x11/src/main/cpp/libxdmcp/Wraphelp.c:428-441 | What a half-round adds is the union of one entry of each of the eight tables, in the rows that the expansion of FIPS 46-3 selects: six bits of the half, round the end, each plus its bit of the even or odd key word. |
| `DesBits.KeyReaches` | termux-x11/src/main/cpp/libxdmcp/Wraphelp.c:428-432 | Inverting bit n of a key word changes the row taken of table j if and only if n is one of the six places from 4j on, round the end. |
| `DesBits.OneTable` | termux-x11/src/main/cpp/libxdmcp/Wraphelp.c:428-441 | No bit of a key word reaches two of the four tables that meet this word. |
| `DesBits.HalfReaches` | termux-x11/src/main/cpp/libxdmcp/Wraphelp.c:428-432 | Inverting bit n of the half changes the row taken of table j if and only if n is one of the six places from 4j - 1 on, round the end. |
| `DesBits.InitialRight` | termux-x11/src/main/cpp/libxdmcp/Wraphelp.c:456-465 | Bit n of the first half is the bit of the block that the first four rows of the table IP in FIPS 46-3 name. |
| `DesBits.InitialLeft` | termux-x11/src/main/cpp/libxdmcp/Wraphelp.c:456-465 | And bit n of the other half the one that the last four rows name. |
| `DesBits.LoadBit` | termux-x11/src/main/cpp/libxdmcp/Wraphelp.c:453-454 | The words are loaded lowest byte first. |
| `Des.Deciphered` | termux-x11/src/main/cpp/libxdmcp/Wraphelp.c:443-495 | The keys in reverse order undo the cipher, for every block, schedule and table. |
| `Des.Enciphered` | termux-x11/src/main/cpp/libxdmcp/Wraphelp.c:443-495 | And the other way round. |
| `Des.RoundsUndone` | termux-x11/src/main/cpp/libxdmcp/Wraphelp.c:428-441 | A Feistel network of any length is undone by its reversed keys, whatever the round function. |
| `Des.FinalInitial` | termux-x11/src/main/cpp/libxdmcp/Wraphelp.c:456-490 | The five bit exchanges after the rounds undo the five before them. |
| `Ownership.DrawnExact` | termux-x11/src/main/cpp/lorie/renderer.c:514-532 | The buffer being drawn is alive in every interleaving if and only if the GUI thread hands over no buffer twice, for every behaviour of the GUI thread and every assignment of ids, equal ones included. |
| `Ownership.HandedOnceExact` | termux-x11/src/main/cpp/lorie/buffer.h:151-157 | A GUI thread that hands over no buffer twice is exactly one under which no interleaving with the renderer lets the GUI thread free a buffer GL knows. |
| `Ownership.OnceSafe` | termux-x11/src/main/cpp/lorie/renderer.c:514-532 | In every interleaving in which no buffer is handed over twice, every buffer is in one list or freed once, and the buffer being drawn is alive. |
| `Ownership.RunSafe` | termux-x11/src/main/cpp/lorie/renderer.c:383-421 | Every reachable state is safe and the buffers accounted for are exactly those handed over, each once. |
| `Ownership.StepSafe` | termux-x11/src/main/cpp/lorie/renderer.c:608-664 | Every single step of either thread keeps the state safe and conserves the buffers. |
| `Ownership.AddSafe` | termux-x11/src/main/cpp/lorie/renderer.c:383-388 | Handing over a live buffer is safe exactly when GL does not know it. |
| `Ownership.FreedByRenderer` | termux-x11/src/main/cpp/lorie/renderer.c:657-661 | A buffer GL knows is freed only by the renderer's own release, when nothing is drawn. |
| `Ownership.FreedByGui` | termux-x11/src/main/cpp/lorie/renderer.c:390-405 | Handing over a live buffer that GL knows lets the next removal free it from the GUI thread. |
| `Ownership.AddedAgain` | termux-x11/src/main/cpp/lorie/activity.c:195-203 | Five steps, all of them possible, after which the buffer being drawn is freed. |
| `Ownership.OnceEnabled` | termux-x11/src/main/cpp/lorie/activity.c:195-203 | A GUI thread that hands over no buffer twice never hands over one that has been freed, whatever the renderer does. |
| `Ownership.FreedAgain` | termux-x11/src/main/cpp/lorie/activity.c:195-203 | Otherwise it can: handed over, removed, and handed over again. |
| `Ownership.NothingLeft` | termux-x11/src/main/cpp/lorie/renderer.c:407-421 | After remove-all all lists are empty once the renderer has released, whatever else happens but a hand-over. |
| `Ownership.AllFreed` | termux-x11/src/main/cpp/lorie/renderer.c:407-421 | And then each buffer ever handed over has been freed exactly once, and no other. |
| `Ownership.DrawnWhenFound` | termux-x11/src/main/cpp/lorie/renderer.c:514-532 | A buffer is drawn if and only if one with the id asked for is attached or waits to be released; what is drawn has the id, and an attached one is preferred. |
| `Ownership.ShownOnceMore` | termux-x11/src/main/cpp/lorie/renderer.c:514-532 | A buffer that is known to GL and has been removed is still the one drawn until the renderer releases it. |
| `Ownership.RemovedAll` | termux-x11/src/main/cpp/lorie/renderer.c:407-421 | Remove-all frees exactly the buffers GL does not know and leaves the others for the renderer. |
| `Ownership.RemovedOne` | termux-x11/src/main/cpp/lorie/renderer.c:390-405 | Removing an id takes away the buffer that has it and no other. |
| `IntrusiveList.DelRing` | termux-x11/src/main/cpp/xserver/include/list.h:180-206 | Unlinking an element leaves a ring of the others in order. |
| `IntrusiveList.InsertRing` | termux-x11/src/main/cpp/xserver/include/list.h:128-157 | Linking a new element puts it behind the head and keeps the rest in order. |
| `IntrusiveList.DelShape` | termux-x11/src/main/cpp/xserver/include/list.h:180-206 | Deleting from one of the three lists leaves the other two as they are. |
| `Renderer.Renderer.AddToList` | termux-x11/src/main/cpp/lorie/buffer.c:442-447 | On the link fields themselves: the buffer leaves whichever list it was in and heads the new one. |
| `Renderer.Renderer.Free` | termux-x11/src/main/cpp/lorie/buffer.c:254-281 | The buffer leaves its list before its memory is given back, and nothing points to it any more. |
| `Renderer.Renderer.FindById` | termux-x11/src/main/cpp/lorie/buffer.c:458-464 | The walk along the links finds the first buffer with the id and ends at the head otherwise. |
| `Renderer.Perform` | termux-x11/src/main/cpp/lorie/renderer.c:608-664 | Any enabled run of both threads from the start, done on the memory, leaves the three lists properly linked, freed memory gone and the state of the run; if no buffer is handed over twice, what is being drawn is allocated. |
| `Renderer.Renderer.Receive` | termux-x11/src/main/cpp/lorie/buffer.c:343-395 | A received buffer has one reference and is in no list; the lists are as before. |
| `Renderer.Renderer.AddBuffer` | termux-x11/src/main/cpp/lorie/renderer.c:383-388 | Pointer updates that refine the hand-over step; a null buffer changes nothing. |
| `Renderer.Renderer.RemoveBuffer` | termux-x11/src/main/cpp/lorie/renderer.c:390-405 | Pointer updates that refine the removal step: freed if not yet attached, moved to the removed list if attached, ignored if unknown. |
| `Renderer.Renderer.RemoveAllBuffers` | termux-x11/src/main/cpp/lorie/renderer.c:407-421 | Both loops end and refine the remove-all step. |
| `Renderer.Renderer.AttachBuffers` | termux-x11/src/main/cpp/lorie/renderer.c:642-649 | The loop ends and refines the attach step. |
| `Renderer.Renderer.BeginDraw` | termux-x11/src/main/cpp/lorie/renderer.c:514-532 | Looks the buffer up among the attached and then among the removed ones, as the draw step of the state machine does; by `Ownership.DrawnWhenFound` a buffer is drawn exactly when there is one with the id. |
| `Renderer.Renderer.Describe` | termux-x11/src/main/cpp/lorie/renderer.c:534-578 | In a safe state the buffer being drawn is allocated. |
| `Renderer.Renderer.ReleaseRemoved` | termux-x11/src/main/cpp/lorie/renderer.c:657-661 | The loop ends and refines the release step. |

## Findings

* **A buffer handed over twice can be freed while it is drawn.** The design comment at
  `termux-x11/src/main/cpp/lorie/renderer.c:518` says that a buffer is not released until drawing ends. This holds in
  every interleaving if and only if the GUI thread hands over no buffer twice (`Ownership.DrawnExact`, for every
  behaviour of the GUI thread). The failing input is in `Ownership.AddedAgain`: hand over b, attach, begin to draw b,
  hand over b again, remove b. The second hand-over moves b from the attached list back to the list of buffers GL does
  not know, so the removal frees it on the GUI thread. The same condition is exact for the rule that a buffer known to
  GL is released on the GL thread only (`Ownership.HandedOnceExact`).
* **A buffer handed over twice can be gone by then.** Handed over, removed and handed over again, it is written to by
  the list deletion in `termux-x11/src/main/cpp/lorie/buffer.c:444` after it was freed (`Ownership.FreedAgain`). A GUI
  thread that hands over no buffer twice never does this (`Ownership.OnceEnabled`).
* The code can get there. `termux-x11/src/main/cpp/lorie/activity.c:196` keeps the received buffer in a static
  pointer; when the allocation of the next one fails, `termux-x11/src/main/cpp/lorie/buffer.c:387-388` clears the
  local parameter `outBuffer` where `*outBuffer` is meant, and `termux-x11/src/main/cpp/lorie/activity.c:201` then
  hands over the buffer of the previous message again.
* **Flushing and finishing can be over at once.** The table in `termux-x11/src/main/cpp/bzip2/manual.xml:1322-1332` has
  the first BZ_FLUSH or BZ_FINISH return BZ_FLUSH_OK or BZ_FINISH_OK. The code returns BZ_RUN_OK or BZ_STREAM_END from
  that very call when nothing is left to hand out, and BZ_SEQUENCE_ERROR from a BZ_FINISH that gets no room. The model
  follows the code (`Follows` in module Compressor is the table it keeps to).

## Left out

Parts of the repository:

- The X server, its extensions, the Android activity, input, clipboard and shared-memory code, and the other bundled libraries.
- bzip2's file interface (`BZ2_bzRead`, `BZ2_bzWrite` and the stdio wrappers), the command-line program and `bzip2recover`: file input and output and option handling.
- libxdmcp's array, read and write functions, key increment, key schedule set-up and parity.

bzip2, what the model does not capture:

- Memory allocation and its failures, null and alignment checks of the handles, verbosity output and the 64-bit byte counters.
- Overlaid memory (`arr1` as pointers, block and 16-bit symbols; `arr2` as block, quadrants and output; class numbers over the block) is modelled where it matters: symbols over pointers as 16-bit halves of one array, class numbers over the block by losing and rebuilding the block, output behind the block by the space bound. Elsewhere each view is an array of its own.
- The header bits of the fallback sorter are an array of bits; scanning them a word at a time is modelled, the packing into 32-bit words is not.
- Hand-unrolled copies of a loop (twelve byte comparisons excepted) and the fast-track copies for six tables and fifty symbols are modelled once, by the loop they stand for.
- RoundTrip.FlushAll: the bytes handed out by a flush alone do not decode to all data consumed, because the source does not pad: up to 32 bits stay in the writer, and the theorem counts them in.
- CodeLengths.MakeCodeLengths: after halving, the code is optimal for the halved weights; that it is the best within 17 bits for the original ones is neither promised nor stated.
- MainSort.Sort: the budget is an unbounded integer, so its decrement past the smallest 32-bit value is not modelled.
- The checksum table and the table of randomisation gaps are parameters: the round trip holds for every table that both sides share. What the checksum is, for the table its polynomial generates, is in module CrcSerial; the 256 numbers of `crctable.c` are not written out.
- Compressor.Compressor.Compress: the 32-bit window sizes are unbounded, and a work factor outside 0 to 250 is refused by `BZ2_bzCompressInit`, which is not modelled.
- Decompressor.Decompressor.Decompress: `Failed` is final. The source keeps its state after `BZ_DATA_ERROR` and a further call resumes from it, which no documentation promises anything about.
- Decompressor.Decompressor.Decompress: the fast form returns from a corrupt block without storing its counters; the model reports the bytes written in that call.
- The fields before a block's symbols (alphabet, selectors, code lengths) are computed by the step function of the state machine; makeMaps_d's loop is proved against the same list of used bytes in Alphabet.

libxdmcp, what the model does not capture:

- The values of the eight substitution tables and of the key schedule are parameters: which entry is taken is compared with FIPS 46-3, what it holds is not.

lorie, what the model does not capture:

- Each allocation has an address of its own: memory that was freed is not handed out again.
- Locks and condition variables: what runs under the buffer lock is one step, waking up and the state lock are left out, and so are the effects of GL calls.
- Renderer.Renderer.Receive: the count read from the socket is the sender's (`termux-x11/src/main/cpp/lorie/buffer.c:354-356`); the sender is not modelled, and one reference is what `termux-x11/src/main/cpp/lorie/buffer.c:112` gives and no caller adds to.
- Renderer.Renderer.Free: gives back links and reference count; file descriptors, mappings and textures are not modelled.
