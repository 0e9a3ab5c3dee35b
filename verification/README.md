# chia-plotter: a verified model

A model in Dafny of the parts of chia-plotter on which the correctness of a plot rests, with proofs for all
inputs and, where threads are involved, for all interleavings.

* **Entropy coding** (`lib/FSE/lib`; the format is that of RFC 8878, sections 4.1 and 4.2). `Walk` and `Spread`
  prove that the odd-step walk over the table is a permutation. `FseTables` builds the encoder and the decoder
  table and proves that their steps are inverse to each other. `BitStream` is the 64-bit register over a buffer,
  written forwards and read backwards. `FseBlock` runs two interleaved states over a block and proves the round
  trip through the overflow status, `AnsDeltas` is the caller for park deltas. `NCount` is the header of the
  counts, `Normalization` the fixed-point normalization. `Huffman` and `HuffmanX2` are the tables built from
  symbol weights.
* **Phase 1** (`Matching`, `Slicing`): the lookup-table matcher and the streaming slicer against the relation
  stated above the matcher.
* **Phases 2 and 3** (`Bitfield`, `Compaction`, `LinePoints`, `Sorting`, `MergeBuffer`, `PlotTrees`,
  `PlotPhases`): marking, renumbering, line points and sorting leave every proof tree as it was, from the first
  pass of phase 2 to the last sorter of phase 3. `ParkBits`, `Parks` and `ParkFile` are the records of the final
  tables.
* **Threads** (`ThreadHandoff`, `ThreadPool`, `MergeBuffer`): lock and condition variable protocols as steps over
  shared state, spurious wake-ups included. A run is any sequence of steps of any actors. `HandoffProgress`,
  `PoolProgress` and `MergeProgress` prove that they get on, `MergeMemory` how much the merge stage holds on to.
* **DiskSort** (`DiskSorting`): the two-level radix sort behind write caches.

`Powers`, `Bytes`, `Sequences`, `PositionWidth` and `Wrappers` hold what these share: shifts, masks and logarithms of natural
numbers, little-endian numbers, chunked streams, the width of positions, options and results.

Machine words are natural numbers with their width written out where it matters; exceptions and error codes are
`Err` values with the words of the original. Code that updates objects, arrays or buffers in place is modelled by
classes and methods with loops, each proved against a specification; the theorems are about the specifications.

## What turned out to be false

Each of these is kept as the code has it, with the exact condition under which the code does what is asked of it.

* Normalization divides by zero if and only if no count exceeds `total >> tableLog`, although all its sanity checks
  pass, and succeeds otherwise: `Normalization.NormalizeCount`, reached by `Normalization.UniformCountsFail` (as many
  symbols as cells).
* A block in which one symbol owns the whole table is never decoded: `FseBlock.DecompressGeneric` says if and
  only if, `FseBlock.FullSymbolLost` is an instance.
* `FSE_BLOCKBOUND` bytes switch the end-of-buffer checks off and are not enough for every distribution, although 0
  is promised for data that does not fit: `FseBlock.CompressUsingCTable` says exactly when a store leaves the
  buffer, `FseBlock.BoundNotEnough` is an instance, and `FseBlock.RoomForBits` is a size a caller can check.
* `FSE_NCountWriteBound` bytes switch the checks of the header writer off and can be one too few:
  `NCount.WriteNCount` says exactly when, `NCount.BoundTooSmall` is an instance, and `NCount.RoomSuffices` is a
  size that is always enough.
* The test that the spread of the symbols has gone through all cells once passes for every whole number of laps:
  `Spread.SpreadSymbolsLoop`, reached by `Spread.LapsNotOne`; for counts that sum to at most the table size it
  is exact: `Spread.LapsWithinSize`.
* The matcher keeps places and distances in 16-bit words without a check. The matches of a stream are right if
  and only if every related pair fits them: `Slicing.ComputeMatches`; `Slicing.WideGroupLosesMatch` is a stream
  that passes every check and loses its one match.
* A small delta of 255 passes the check of the parks, and neither it nor any other delta past the last symbol of
  the distribution has a table entry: `AnsDeltas.AnsEncodeDeltas` and `Parks.WritePark` say exactly when the encoder
  looks outside its table, `Parks.UnforeseenGap` is an instance for every distribution.
* A table whose lowest group is 1 makes the slicer hand on a null bucket, since the group before it is taken to
  be 0: `Slicing.ComputeMatches`, reached by `Slicing.OneEntryStartsAtOne`.
* The line point of an equal pair is that of another pair: `LinePoints.PairRecovered`. Distances of at least 1
  rule such pairs out.
* The merge stage can call a valid position out of bounds, because `L_is_end` is read after the mutex has been
  released: `MergeBuffer.RaceThrows`, and only so: `MergeBuffer.OutOfBoundsOnlyByRace`.

## Model

| member | source | states |
|---|---|---|
| Walk.OrderIsPermutation | lib/FSE/lib/fse_compress.c:122-134 | walking a table of 2^n cells with any odd step, skipping the cells past a limit, visits every cell below the limit once |
| Walk.BackAtZero | lib/FSE/lib/fse_compress.c:124-133 | after k steps the walk is at 0 exactly when it has kept nothing yet or every cell below the limit; what it has kept is a prefix of the order |
| Spread.NextPosition | lib/FSE/lib/fse_compress.c:128-130 | one move: the skipping loop terminates and lands on the next kept cell of the walk |
| Spread.PlaceRun | lib/FSE/lib/fse_compress.c:125-131 | all occurrences of one symbol go to the next cells of the walk, and the low-probability area stays untouched |
| Spread.SpreadSymbolsLoop | lib/FSE/lib/fse_compress.c:119-134 | the final position is 0 if and only if the occurrences take the walk round a whole number of laps, which counts that sum to the table size do: then the table is the one spread of the distribution. The decoder runs the same loop |
| Spread.LapsWithinSize | lib/FSE/lib/fse_compress.c:133 | for counts that sum to no more than the table size, with some not of low probability, the test passes if and only if the sum is the size |
| Spread.LapsNotOne | lib/FSE/lib/fse_decompress.c:135 | beyond that it passes counts that do not fill the cells once: a single 64 over 32 cells, and a single -1 |
| Spread.SpreadShares | lib/FSE/lib/fse_compress.c:119-134 | in a spread every symbol s sits in exactly abs(norm[s]) cells, no other value anywhere |
| Spread.SpreadUnique | lib/FSE/lib/fse_decompress.c:124-136 | the spread is determined by the distribution, so the tables of encoder and decoder agree |
| FseTables.BuildCTable | lib/FSE/lib/fse_compress.c:86-181 | a table whose state table and symbol transforms are those of the spread if and only if the counts sum to the table size; GENERIC if and only if the laps are not whole; the cells are not the shares of the counts otherwise |
| FseTables.SymbolStarts | lib/FSE/lib/fse_compress.c:109-120 | cumulative starts of the symbols, low-probability symbols laid down from the end, high threshold below them |
| FseTables.SortStates | lib/FSE/lib/fse_compress.c:136-140 | the state table holds the cells sorted by symbol, in order of position within a symbol |
| FseTables.CTableUnique | lib/FSE/lib/fse_compress.c:86-181 | the encoder table of a distribution is the only one: which cell belongs to which slot is determined by the order of the cells |
| FseTables.BuildTransform | lib/FSE/lib/fse_compress.c:142-166 | deltaNbBits and deltaFindState of a symbol from its count and the shares before it |
| FseTables.BuildDTable | lib/FSE/lib/fse_decompress.c:93-148 | more than 256 symbols, then a table log above 14, have their error codes; otherwise the same for the cells of the decoder |
| FseTables.LayLowSymbols | lib/FSE/lib/fse_decompress.c:107-122 | low-probability symbols at the end, counters at the shares, fast mode exactly when no count reaches half the table |
| FseTables.FillCells | lib/FSE/lib/fse_decompress.c:138-145 | every cell holds its symbol, its bit count and the state base of its rank among the cells of the symbol |
| FseTables.EncodeStep | lib/FSE/lib/fse.h:534-541 | from any state in [T, 2T) and any symbol with a share, the fixed-point bit count sends just the bits that bring the state between the count and twice the count, and the slot is that of a cell of the symbol |
| FseTables.DecodeUndoesEncode | lib/FSE/lib/fse.h:620-629 | the cell an encoding step leads to holds the symbol and the bit count, and its new state plus the bits sent is the state before |
| FseTables.EncodeUndoesDecode | lib/FSE/lib/fse.h:534-541 | the other direction: from the state that a cell and any bits lead to, encoding the symbol of the cell sends those bits and returns to the cell |
| FseTables.InitStateIsSmallest | lib/FSE/lib/fse.h:523-532 | FSE_initCState2 yields the smallest state that decodes to its symbol, and that state asks for at least one bit unless the symbol owns the table |
| BitStream.StreamIsStack | lib/FSE/lib/bitstream.h:214-222 | fields pushed on the abstract stack one after the other come back in reverse order, with what was there before below them |
| BitStream.CStream.constructor | lib/FSE/lib/bitstream.h:199-209 | an empty stream, usable when the buffer has more than 8 bytes |
| BitStream.CStream.AddBits | lib/FSE/lib/bitstream.h:214-222 | masked low bits go on top of the content, as long as the register stays below 64 bits |
| BitStream.CStream.FlushBitsFast | lib/FSE/lib/bitstream.h:239-248 | whole bytes move to the buffer, the content is unchanged; needs the room |
| BitStream.CStream.FlushBits | lib/FSE/lib/bitstream.h:255-264 | the same with the end of the buffer checked: content survives unless the stream is clipped |
| BitStream.CStream.Close | lib/FSE/lib/bitstream.h:269-275 | 0 exactly when the content and its end mark reach the reserved end of the buffer; otherwise the bytes written are the stream of the content |
| BitStream.EndMark | lib/FSE/lib/bitstream.h:298-329 | the end mark is the highest bit of the stream, found in its last byte |
| BitStream.StreamContent | lib/FSE/lib/bitstream.h:287-333 | a reader of a closed stream finds the content below the end mark, and no more |
| BitStream.DStream.constructor | lib/FSE/lib/bitstream.h:287-333 | streams of any length, shorter or longer than the register: all bits below the end mark are unread |
| BitStream.DStream.ReadBits | lib/FSE/lib/bitstream.h:395-400 | reads the top of the unread bits while the register has them |
| BitStream.DStream.ReadBitsFast | lib/FSE/lib/bitstream.h:404-410 | the same for at least one bit |
| BitStream.DStream.Reload | lib/FSE/lib/bitstream.h:417-444 | never reads before the start, loses nothing, reports overflow exactly when more bits than the register holds were consumed and completion exactly when none is left |
| BitStream.WriteFields | lib/FSE/lib/bitstream.h:199-275 | a run of the writer over any fields below 32 bits: 0 exactly when the buffer is too small, otherwise the bytes are the stream of the fields, cut to their widths |
| BitStream.ReadFields | lib/FSE/lib/bitstream.h:287-444 | a run of the reader over any closed stream: the fields in reverse order; no overflow, and completion reported exactly when no bits are left |
| BitStream.RoundTrip | lib/FSE/lib/bitstream.h:199-444 | what the writer writes, in a buffer with room, the reader gives back in reverse order, and it reports completion exactly when no bits are left |
| FseBlock.InitCState2 | lib/FSE/lib/fse.h:523-532 | the initial state of a symbol, in range |
| FseBlock.EncodeSymbol | lib/FSE/lib/fse.h:534-541 | sends the low bits of the state and moves to the next state of the symbol |
| FseBlock.DecodeSymbol | lib/FSE/lib/fse.h:620-642 | takes the symbol, the bits and the next state of a cell, in both modes |
| FseBlock.EncodedInRange | lib/FSE/lib/fse_compress.c:567-624 | after any part of the source both encoder states are in range, and a symbol costs at most tableLog bits |
| FseBlock.CompressGeneric | lib/FSE/lib/fse_compress.c:567-624 | 0 for a source of at most 2 symbols or a buffer too small; in the fast mode a store past the end of the buffer if and only if the bits of the symbols leave no room for the register; otherwise the bytes are the stream of the block |
| FseBlock.CompressUsingCTable | lib/FSE/lib/fse_compress.c:626-636 | the same; the fast mode is that of a buffer of srcSize + srcSize / 128 bytes or more |
| FseBlock.RoomForBits | lib/FSE/lib/fse.h:189-193 | srcSize * tableLog / 8 + 9 bytes keep every store inside, for every source and distribution, and one byte more holds the block |
| FseBlock.RarePassesBound | lib/FSE/lib/fse_compress.c:630 | a buffer of FSE_BLOCKBOUND bytes is passed by every run of nine or more of a symbol with one cell, from table log 9 on |
| FseBlock.BoundNotEnough | lib/FSE/lib/fse.h:189-193 | nine symbols into nine bytes: a store past the end where 0 is promised |
| FseBlock.DecodeAt | lib/FSE/lib/fse_decompress.c:222-240 | ahead of the last two symbols a decoding step undoes the encoding step at the same position, whichever of the two states has the turn |
| FseBlock.DecodeLast | lib/FSE/lib/fse_decompress.c:242-257 | the last two symbols sit in the states with no bits left, and decoding the first of them asks for a bit unless a symbol owns the table |
| FseBlock.FullTable | lib/FSE/lib/fse_decompress.c:242-257 | a symbol that owns the whole table leaves every cell without bits, so overflow cannot be reached |
| FseBlock.DecodeMain | lib/FSE/lib/fse_decompress.c:222-240 | four symbols per full register keep the decoder in step with the encoder |
| FseBlock.DecodeTail | lib/FSE/lib/fse_decompress.c:242-257 | the tail leaves only through overflow, after exactly the last two symbols, or through a full destination |
| FseBlock.DecompressGeneric | lib/FSE/lib/fse_decompress.c:200-260 | block round trip: given a block of src, the decoder returns src and its length if and only if the destination has room and no symbol owns the table, otherwise dstSize_tooSmall; any other input leads to an error or a length within the destination |
| FseBlock.DecompressUsingDTable | lib/FSE/lib/fse_decompress.c:263-274 | the same in the mode the table was built for |
| FseBlock.LoseBlock | lib/FSE/lib/fse_decompress.c:200-260 | with a symbol that owns the table every source of three or more compresses and is not given back |
| FseBlock.FullSymbolLost | lib/FSE/lib/fse_decompress.c:200-260 | the counts [32] at table log 5 |
| AnsDeltas.CapacitySuffices | include/chia/encoding.hpp:200-201 | eight bytes a delta hold every block, with room to spare in the loop |
| AnsDeltas.BlockFits | include/chia/encoding.hpp:200-201 | a block of deltas has at most 14 bits for each of them and one byte more |
| AnsDeltas.BlockUnique | include/chia/encoding.hpp:182-202 | the bytes of a block are determined by the deltas and the distribution |
| AnsDeltas.AnsEncodeDeltas | include/chia/encoding.hpp:182-202 | fewer than three deltas have size 0; three or more are a block of the deltas if and only if each has a table entry |
| AnsDeltas.AnsDecodeDeltas | include/chia/encoding.hpp:209-243 | gives back the deltas of a block, never a 255, and reports a block of more deltas than asked for |
| AnsDeltas.RoundTrip | include/chia/encoding.hpp:182-243 | three or more deltas survive encoding and decoding if and only if each has a table entry |
| NCount.CodeDecodes | lib/FSE/lib/fse_compress.c:259-270 | every count that fits what remains has a truncated binary code, short for the smaller half, that determines it |
| NCount.DecodedIsCount | lib/FSE/lib/entropy_common.c:128-140 | reading a code gives the count and its width back, whatever bits follow |
| NCount.WriteGeneric | lib/FSE/lib/fse_compress.c:204-289 | the bytes written are the header of the distribution, if and only if the buffer holds every byte touched; otherwise the checked writer reports it and the unchecked one stores past the end |
| NCount.WriteNCount | lib/FSE/lib/fse_compress.c:292-301 | error codes for a table log above 14 or below 5; the mode, and with it what happens in a buffer too small, goes by symbols * tableLog / 8 + 3 bytes, or 512 for a single symbol |
| NCount.RoomSuffices | lib/FSE/lib/fse_compress.c:198-202 | (symbols * (tableLog + 3) + 19) / 8 + 2 bytes are always enough |
| NCount.BoundTooSmall | lib/FSE/lib/fse_compress.c:198-202 | eleven counts at table log 5 for which NCountWriteBound is 9 and the writer touches 10 bytes |
| NCount.ReadHeader | lib/FSE/lib/entropy_common.c:87-168 | tableLog_tooLarge if and only if the first four bits say more than 15; whatever is accepted is a distribution of 2^tableLog cells within the buffer; a written header followed by 8 bytes is read back in full |
| NCount.ReadNCount | lib/FSE/lib/entropy_common.c:60-169 | the same, with buffers shorter than four bytes padded |
| NCount.RoundTrip | lib/FSE/lib/fse_compress.c:204-289 | if the buffer holds every byte touched, what is written and followed by at least eight bytes is read back: the same counts, table log and exactly the written size |
| Normalization.NormalizeCount | lib/FSE/lib/fse_compress.c:448-507 | error codes for a table log below 5, above 14, or with fewer cells than occurrences and than twice the symbols; one symbol being the whole source; a division by zero if and only if no count exceeds total >> tableLog; otherwise success, with absolute values summing to 2^tableLog, 0 exactly for absent and -1 exactly for rare symbols: the rounded counts with the difference given to the first largest while that is less than half of it, and what the fallback gives if not |
| Normalization.RoundingBars | lib/FSE/lib/fse_compress.c:458-479 | a count above the threshold is rounded to the fixed-point quotient q or to q + 1: to q + 1 if and only if q is below 8 and the fraction exceeds the bar of q, the eight bars being written out over 2^20 |
| Normalization.HalfRoundsUp | lib/FSE/lib/fse_compress.c:448-507 | the counts 3 and 61 over 32 cells become 2 and 30 |
| Normalization.NormalizeM2 | lib/FSE/lib/fse_compress.c:364-445 | the fallback divides by zero exactly when no count exceeds total >> tableLog and succeeds otherwise, so that its own error is never returned; it conserves the cells, with 0 exactly for absent and -1 exactly for rare symbols; what it returns is the outcome of the classes of the symbols, stated as proportions |
| Normalization.OpenHasShare | lib/FSE/lib/fse_compress.c:395-408 | a symbol that is still open after the two passes has at least one share of the cells and counts that are left |
| Normalization.OpenIsServed | lib/FSE/lib/fse_compress.c:428-441 | so the scaling never leaves an open symbol without a cell |
| Normalization.MinTableLogFits | lib/FSE/lib/fse_compress.c:331-338 | the least table log is the one whose cells are two for every symbol or one for every occurrence |
| Normalization.AllToMax | lib/FSE/lib/fse_compress.c:410-419 | when every symbol has one cell, the first of the most frequent gets all that are left |
| Normalization.FirstPass | lib/FSE/lib/fse_compress.c:375-395 | absent symbols get nothing, symbols up to the first threshold low probability, up to the second one cell, and the others stay open; distributed cells and open counts are kept |
| Normalization.SecondPass | lib/FSE/lib/fse_compress.c:397-408 | exactly the open symbols up to the new threshold get one cell, the sums are kept |
| Normalization.HandRound | lib/FSE/lib/fse_compress.c:421-426 | handing cells round serves the positive counts in order, round after round, until exactly so many have been given out |
| Normalization.StepReachesEnd | lib/FSE/lib/fse_compress.c:428-430 | the 62-bit fixed-point step makes the last open symbol end exactly on the cells to distribute |
| Normalization.Scale | lib/FSE/lib/fse_compress.c:428-444 | every open symbol gets the cells its count walks over and the others keep theirs, which uses up exactly the rest; an error if and only if some open symbol gets none |
| Normalization.WeightIsFair | lib/FSE/lib/fse_compress.c:431-441 | the cells an open symbol walks over differ from its proportional share by less than one |
| Normalization.Corrected | lib/FSE/lib/fse_compress.c:484-489 | giving the rounding difference to the largest symbol normalizes, with one count large |
| Normalization.AllOnes | lib/FSE/lib/fse_compress.c:395-419 | no count exceeds its share only if as many symbols as cells occur once each |
| Normalization.UniformCountsFail | lib/FSE/lib/fse_compress.c:395-397 | such counts exist for every table log from 5 to 8 and pass all sanity checks, so the division by zero is reached |
| Huffman.ReadStats | lib/FSE/lib/entropy_common.c:200-238 | a header is accepted if and only if every weight listed is below 12 and some weight for the last symbol fills a table of at most 2^12 cells, with an even number, at least two, of weights 1; that weight and table log are returned |
| Huffman.SortedIsComplete | lib/FSE/lib/entropy_common.c:210-235 | accepted weights, in order of weight, fill the table exactly |
| Huffman.CellsCovered | lib/FSE/lib/huf_decompress.c:120-131 | every cell lies among the cells of exactly one symbol |
| Huffman.StartRanks | lib/FSE/lib/huf_decompress.c:112-118 | the starting value of a rank is where its first symbol starts |
| Huffman.ReadDTableX1 | lib/FSE/lib/huf_decompress.c:120-131 | the fill writes in every cell the symbol it lies in, with its code length |
| Huffman.AssignCodes | lib/FSE/lib/huf_compress.c:186-214 | the value of a symbol, followed by zeros, is where its cells start |
| Huffman.CodeOfCell | lib/FSE/lib/huf_compress.c:196-214 | the leading bits of a cell index are the code of a symbol if and only if the cell holds that symbol |
| HuffmanX2.FindMaxWeight | lib/FSE/lib/huf_decompress.c:581-582 | the search for the largest weight stops before zero |
| HuffmanX2.SortSymbols | lib/FSE/lib/huf_decompress.c:584-604 | the counting sort puts every symbol with a code at its place by weight, weight 0 behind them |
| HuffmanX2.BuildRankVal | lib/FSE/lib/huf_decompress.c:606-623 | start values for every weight, and shifted by every number of consumed bits that leaves room for a code |
| HuffmanX2.FillLevel2 | lib/FSE/lib/huf_decompress.c:453-491 | the block of a first symbol: single cells, then every second symbol whose code fits, each at its start |
| HuffmanX2.FillX2 | lib/FSE/lib/huf_decompress.c:494-534 | every block of the double-symbol table is filled with its entries, single when no second code can fit |
| HuffmanX2.ReadDTableX2 | lib/FSE/lib/huf_decompress.c:571-634 | tableLog_tooLarge exactly when the code does not fit the table; otherwise the table built is the double-symbol table of the weights |
| HuffmanX2.Refinement | lib/FSE/lib/huf_decompress.c:494-534 | for any bits to come, a cell of the double-symbol table gives the symbols and the bit count of one single-symbol lookup, and of a second one just when its code also lies within the index |
| Matching.LoadTables | include/chia/phase1.hpp:24-36 | the target table |
| Matching.TargetIsRelated | include/chia/phase1.hpp:168-176 | the target of a left y and an m is the one right y offset that stands in the stated relation |
| Matching.RelatedOnce | include/chia/phase1.hpp:168-176 | no pair is related by two different m |
| Matching.SixtyFourRelated | include/chia/phase1.hpp:24-36 | every left y is related to exactly 64 of the 15113 residues of the next group |
| Matching.PartnersOf30226 | include/chia/phase1.hpp:213-220 | 30226 is related to 45339, 50469 and 53341, for m = 0, 40 and 63, and not to 53468, the target that m = 64 would have |
| Matching.PartnersOf60451 | include/chia/phase1.hpp:168-176 | 60451 is related to 75438, 60460 and 68452 and not to their neighbours |
| Matching.FxMatcher.Clear | include/chia/phase1.hpp:192-195 | nothing of the last call is left |
| Matching.FxMatcher.Locate | include/chia/phase1.hpp:197-207 | for every offset, where its right entries start and how many there are, both cut to 16 bits |
| Matching.FxMatcher.SearchRow | include/chia/phase1.hpp:211-221 | one left entry adds its related right entries, each once, and what is stored of them is what the 16-bit words hold |
| Matching.FxMatcher.FindMatchesEx | include/chia/phase1.hpp:181-223 | whatever the matcher was used for before, exactly the related pairs of two adjacent groups are found, each once, if they fit the 16-bit words; in any case no more than there are, within the buckets |
| Slicing.Slicer.Take | include/chia/phase1.hpp:361-388 | one entry: completes a pair of adjacent groups, opens a bucket, or reports unsorted input |
| Slicing.FindMatches | include/chia/phase1.hpp:225-250 | positions and distances into the whole stream, in 16-bit words; more than kBC matches are an error |
| Slicing.MatchPairs | include/chia/phase1.hpp:346-354 | the pairs of a chunk, or the use of a null bucket |
| Slicing.LastMatches | include/chia/phase1.hpp:400-406 | the pair still open at the end |
| Slicing.ComputeMatches | include/chia/phase1.hpp:298-418 | for a sorted stream in any chunks: if its lowest group is 1 a null bucket is used; otherwise an error only if a pair of groups overflows the index arrays, and exactly then as long as every related pair has its left entry among the first 65536 of its group and a distance below 65536; up to 2^32 entries, the matches are exactly the related pairs if and only if all related pairs have that |
| Slicing.FarIsLost | include/chia/phase1.hpp:184-185 | a related pair that does not fit the words is not among the matches |
| Slicing.RightIffFits | include/chia/phase1.hpp:184-250 | the matches are complete and right if and only if every related pair fits |
| Slicing.WideGroupLosesMatch | include/chia/phase1.hpp:155-158 | a sorted stream of 65538 entries, accepted by every check, whose one related pair is lost |
| Slicing.OneEntryStartsAtOne | include/chia/phase1.hpp:306-388 | a single entry of group 1 is enough for the null bucket |
| Slicing.MatchesAreRelation | include/chia/phase1.hpp:168-250 | entries i and j with i below 2^32 are related if and only if there is a match with position i and distance j - i, and that match is unique and holds these entries |
| Bitfield.BitField.constructor | include/chia/bitfield.hpp:26-31 | whole words, all clear |
| Bitfield.BitField.Set | include/chia/bitfield.hpp:34-38 | sets one bit and no other |
| Bitfield.BitField.Get | include/chia/bitfield.hpp:40-44 | the bit |
| Bitfield.BitField.Clear | include/chia/bitfield.hpp:46-51 | all bits clear |
| Bitfield.BitField.Count | include/chia/bitfield.hpp:62-81 | the number of set bits in a range, word by word with a masked tail, is the plain count |
| Bitfield.BitfieldIndex.constructor | include/chia/bitfield_index.hpp:26-36 | one count for every 1024 bits, which caches the plain count before it |
| Bitfield.BitfieldIndex.Lookup | include/chia/bitfield_index.hpp:38-58 | new position and distance are plain counts of set bits, at every position |
| Compaction.Mark | include/chia/phase2.hpp:33-47 | a bit is set if and only if a kept entry refers to its position |
| Compaction.Remap | include/chia/phase2.hpp:81-104 | the entries written are the kept ones, in order, renumbered by rank and keyed by a running number |
| Compaction.ComputeTable | include/chia/phase2.hpp:21-123 | marking and rewriting of one table |
| Compaction.ReferencesPreserved | include/chia/phase2.hpp:89-104 | a kept entry refers to the same two entries in the compacted table below, at a distance that does not grow and does not shrink to nothing |
| PlotTrees.ComputePhase2 | include/chia/phase2.hpp:126-172 | the chain from table 7 to table 2 with two bit fields swapped gives the phase 2 tables |
| PlotTrees.KeptIsReached | include/chia/phase2.hpp:33-43 | the entries kept in a table are exactly those reachable from table 7 |
| LinePoints.Unpair | include/chia/encoding.hpp:129-140 | the bitwise search finds the largest 64-bit root and what is left |
| LinePoints.GetXEncIsTri | include/chia/encoding.hpp:97-107 | halving before multiplying on 64-bit words gives 0 + 1 + ... + (x - 1) |
| LinePoints.PairRecovered | include/chia/encoding.hpp:115-140 | the search inverts the encoding if and only if the two numbers differ, or are both 2^64 - 1 |
| LinePoints.DiagonalCollides | include/chia/encoding.hpp:115-125 | an equal pair shares its line point with the pair of the next number and 0 |
| LinePoints.PairsInOrder | include/chia/encoding.hpp:115-125 | line points order pairs by the larger, then the smaller number |
| LinePoints.PairsFitKey | include/chia/phase3.hpp:497-498 | k-bit numbers, equal ones included, stay below 2^(2k - 1), the key size of the sort, and no pair overflows 127 bits |
| MergeBuffer.WindowIsSlice | include/chia/phase3.hpp:103-164 | in every interleaving a worker holds exactly the stretch of the L stream that starts at its offset |
| MergeBuffer.NothingNeededIsDiscarded | include/chia/phase3.hpp:57-66 | what has left the list had been copied by every worker, and the list holds the rest of what was handed out, in order |
| MergeBuffer.EmittedAreMerged | include/chia/phase3.hpp:147-156 | every entry put out holds the L values at pos and pos + off, and a finished chunk is complete |
| MergeBuffer.AllHandedOn | include/chia/phase3.hpp:103-164 | a run that ends without an exception has handed on every chunk of R, merged |
| MergeProgress.NeverStuck | include/chia/phase3.hpp:49-164 | in every run, until somebody throws or both streams are used up, some step changes something: producer and workers never wait for each other |
| MergeProgress.SomeRunCompletes | include/chia/phase3.hpp:103-164 | for R sorted by position and within L there is a run that hands on everything |
| MergeMemory.OneAhead | include/chia/phase3.hpp:57-59 | in every run, until R ends, the producer is at most one buffer ahead of the worker whose window reaches furthest |
| MergeMemory.FrontIsNeeded | include/chia/phase3.hpp:60-63 | when a buffer is handed out, the list that is left starts where the window of some worker ends: nothing stays that all have copied |
| MergeMemory.WindowIsTrimmed | include/chia/phase3.hpp:158-164 | a worker between two chunks has dropped what lies before the position of the last entry of the chunk it has finished |
| MergeBuffer.SortedInputAccepted | include/chia/phase3.hpp:115-117 | with R sorted by position no entry lies before a window |
| MergeBuffer.OutOfBoundsOnlyByRace | include/chia/phase3.hpp:143-150 | an entry within L is called out of bounds only by a worker whose scan of the list preceded the end flag it then saw |
| MergeBuffer.RaceThrows | include/chia/phase3.hpp:143-150 | that race exists: a run that throws for an entry within L |
| PlotTrees.ChunksMerged | include/chia/phase3.hpp:103-164 | the finished chunks of the merge workers, put together, are the merged table |
| PlotTrees.FilterUsed | include/chia/phase3.hpp:69-84 | the x values of one block of table 1 that are still used, in order |
| PlotTrees.AddLinePoints | include/chia/phase3.hpp:88-101 | line point and key of every merged entry |
| PlotTrees.AddPositions | include/chia/phase3.hpp:349-366 | new positions of one block, dropping those past 2^PMAX |
| PlotTrees.BlocksOfPositions | include/chia/phase3.hpp:349-366 | in a table that does not overflow the blocks add up to the positions of the whole |
| PlotTrees.NextStream | include/chia/phase3.hpp:46-67 | sorted by the running keys, new positions form the stream of the next table: one for every entry, no two the same |
| PlotTrees.TreesSurvive | include/chia/phase3.hpp:349-366 | phase 3 applied to the tables of phase 2 preserves every proof tree: some record of the y of a table 7 entry unfolds, line point by line point, to the tree that following pos and pos + off through the phase 1 tables gives (as test/check_phase_1.cpp does), up to swapping children. `PlotPhases.ComputePhase3` establishes the hypothesis |
| PlotTrees.NothingInvented | include/chia/phase3.hpp:349-366 | every record of the final table unfolds to the tree of a table 7 entry with that y |
| PlotPhases.ReadTable1 | include/chia/phase3.hpp:69-84 | table 1, read in blocks of any size, arrives as the x values still used, in order |
| PlotPhases.ReadBlocks | include/chia/DiskTable.h:63-95 | the blocks of a table file add up to the table |
| PlotPhases.ReadSorted | include/chia/phase3.hpp:166-179 | tables 2 to 6 arrive as permutations sorted by position, as the merge workers demand; an error exactly when k leaves no two levels of buckets |
| PlotPhases.MergeStage | include/chia/phase3.hpp:103-164 | however the merge workers run, as long as none throws the chunks handed on are the merged table |
| PlotPhases.AddAllPositions | include/chia/phase3.hpp:349-366 | the sorted blocks of a table of at most 2^PMAX entries get their running positions |
| PlotPhases.CompactedInside | include/chia/phase2.hpp:89-104 | the entries of a compacted table refer to kept entries below, and their keys run from 0 |
| PlotPhases.ComputeStages | include/chia/phase3.hpp:22-465 | stages 1 and 2 for one table, through both sorters with 2k - 1 and k key bits: the final points, and for every entry the record of its position |
| PlotPhases.ComputePhase3 | include/chia/phase3.hpp:468-550 | from any tables of phase 2, of at most 2^k kept entries and 2^PMAX, with k-bit x and y and table 7 in order of position: phase 3 succeeds if and only if k >= 2 * log_num_buckets, its result is the Phase3 of the two theorems above, and the final tables hold exactly the proof trees of phase 1 |
| PlotPhases.Phase3KeepsTrees | include/chia/phase3.hpp:468-550 | every table 7 entry has a record that leads to its tree, and every record leads to the tree of an entry |
| PlotPhases.SomeThreadsWork | include/chia/phase3.hpp:49-164 | what ComputePhase3 asks of the threads and the sort routine can be met |
| Sorting.KeyIsPosition | include/chia/phase2.hpp:81-87 | sorting by the keys 0, 1, 2, ... puts every element at the position its key names |
| ParkBits.ParkBits.AppendValue | include/chia/bits.hpp:365-374 | a field of up to 128 bits goes behind the content |
| ParkBits.ParkBits.DoAppendValue | include/chia/bits.hpp:376-404 | a field of up to 64 bits goes behind the content: in a new word, in the last one, or split over the two |
| ParkBits.ParkBits.ToBytes | include/chia/bits.hpp:310-325 | the content from the top, the last byte padded with zeros |
| ParkBits.FieldFound | include/chia/bits.hpp:310-404 | every field of a packed section is found again at its bit position |
| Parks.Slice | include/chia/phase3.hpp:411-445 | for any cutting of the sorted points into blocks, park i holds points 2048 i up to the next park, the last one perhaps fewer |
| Parks.SplitGaps | include/chia/phase3.hpp:379-394 | stubs and small deltas of the gaps; an error exactly when some small delta is 256 or more |
| Parks.PointsRebuilt | include/chia/phase3.hpp:385-394 | first point, stubs and small deltas give all points of a park |
| Parks.StoreDeltas | include/chia/phase3.hpp:299-314 | deltas compressed with their size, or stored with bit 15 of the size set; it goes through exactly for fewer than three deltas or deltas that all have an entry |
| Parks.DeltaBytesUnique | include/chia/phase3.hpp:299-314 | the bytes that the deltas of a park are stored in are determined |
| Parks.OverflowsIff | include/chia/phase3.hpp:316-322 | a park overflows if and only if its deltas and their size take more than the 1433 bytes that a record of table 1 has for them, 896 in the other tables |
| Parks.RecordSizes | include/chia/phase3.hpp:203-224 | a record keeps the bytes that 2k bits, 2047 stubs of k - 3 bits and the deltas need: 8862 for table 1 and 8325 for the others with k = 32 |
| Parks.WritePark | include/chia/phase3.hpp:276-322 | a record of the fixed size that is a park of the points if and only if the park is writable, and the exact condition of each of the three errors: some gap too wide; more than three points and a delta without a table entry; and, with neither, deltas that take more than the space of the record |
| Parks.SmallParkWritable | include/chia/phase3.hpp:276-322 | a park of at most 500 points without a wide gap, whose small deltas all have a table entry, is always written |
| Parks.NoEntryFor255 | include/chia/phase3.hpp:388-390 | a gap whose high part is 255 passes the check, and no distribution of at most 255 symbols has an entry for it |
| Parks.UnforeseenGap | include/chia/phase3.hpp:388-390 | four points of 2k bits that cannot be written, for every k from 5 and every distribution |
| Parks.ReadPark | include/chia/phase3.hpp:268-274 | a reader of the stated format finds the points of any park record |
| Parks.ParkRoundTrip | include/chia/phase3.hpp:276-322 | every writable park is written and read back, point for point, and no other is written |
| ParkFile.MakeRecords | include/chia/phase3.hpp:375-409 | if and only if all parks of the table are writable there are records: record i is a park of the points of park i and is placed at begin + i * park size; no empty park reaches the threads |
| ParkFile.WriteRecords | include/chia/phase3.hpp:368-373 | every record is at its place in the file, all other bytes are as before |
| ParkFile.StoreTable | include/chia/phase3.hpp:411-454 | for any cutting of the stream, if and only if all parks are writable the file holds the parks one after the other up to the returned end, and nothing else in it has changed |
| ParkFile.ReadTable | include/chia/phase3.hpp:268-274 | a table stored so is read back in full |
| ParkFile.RoundTrip | include/chia/phase3.hpp:375-454 | the points of a table survive the plot file if and only if all its parks are writable |
| ThreadHandoff.OrderedHandoff | include/chia/Thread.h:50-136 | in every run, and for any number of callers, the inputs executed are a prefix of those taken in, and as long as no execution throws what is left over is the one in hand and the one in the slot |
| ThreadHandoff.WaitMeansDone | include/chia/Thread.h:75-83 | when wait returns without throwing, everything taken in has been executed, also on a thread that has been closed |
| ThreadHandoff.RunDrains | include/chia/Thread.h:86-95 | past the wait of close, and ever after unless an execution throws, the slot is empty and the worker idle; until then close is the only call |
| ThreadHandoff.SomebodyIsAwake | include/chia/Thread.h:50-136 | no notification is lost: while a call is in progress somebody is awake |
| ThreadHandoff.NoTripleBuffering | include/chia/Thread.h:50-72 | while the thread runs, once no call of take waits for its input to be picked up at most one input is left to execute, and at most two before |
| HandoffProgress.NeverStuck | include/chia/Thread.h:50-136 | from every reachable state with a call in progress some step of the worker or of an awake caller inside a call leads to another state |
| HandoffProgress.RunCompletes | include/chia/Thread.h:50-136 | every run can be continued without a new call until nobody is in one and everything taken in has been executed, unless an execution has thrown |
| HandoffProgress.SomeRunCompletes | include/chia/Thread.h:50-136 | for every list of inputs there is a run that takes them in and ends with exactly these executed, in order, and nobody in a call |
| HandoffProgress.SomeRunCloses | include/chia/Thread.h:74-95 | the same with a wait and a close behind, after which the worker is gone |
| HandoffProgress.ThrowAt | include/chia/Thread.h:119-136 | an execution may throw: the thread fails, the worker is gone, and that input is the one lost |
| ThreadPool.OrderedEmission | include/chia/ThreadPool.h:102-125 | when no execution throws, and for any number of workers, one included, results reach the output in submission order, each once, and never two workers are inside it |
| ThreadPool.IdleMeansAllOut | include/chia/ThreadPool.h:67-72 | once every worker is idle, everything submitted has been put out |
| ThreadPool.LowestNeverBlocked | include/chia/ThreadPool.h:111-116 | the lowest outstanding job is held by the worker whose turn it is, and the gate is open for it or about to be |
| PoolProgress.NeverStuck | include/chia/ThreadPool.h:55-125 | in every run, until every result is out and every worker idle, some step of the submitter or of a worker leads to another state |
| PoolProgress.OutstandingMoves | include/chia/ThreadPool.h:102-125 | while results are outstanding some step of a worker leads to another state, and it is not a spurious wake-up |
| PoolProgress.EveryRunEnds | include/chia/ThreadPool.h:55-125 | no run without spurious wake-ups is longer than twelve steps for every input, in whatever order the workers step; where it can go no further the results of all inputs are out, in order, and every worker is idle |
| PoolProgress.RunCompletes | include/chia/ThreadPool.h:55-125 | every run can be continued until the results of all inputs are out, in order, and every worker is idle |
| PoolProgress.SomeRunCompletes | include/chia/ThreadPool.h:55-125 | for every function, all inputs and any number of workers from 1 there is a run that does so |
| DiskSorting.DiskSort.Add | include/chia/DiskSort.hpp:68-82 | the new contents of cache and bucket: the entry goes behind those of its buffer, and a full buffer to the bucket before; a key past the last bucket is refused, and a full buffer of a finished sort, and nothing else; an error leaves everything as it was. No buffer ever outgrows the capacity |
| DiskSorting.DiskSort.Flush | include/chia/DiskSort.hpp:85-94 | every buffer of the cache goes behind its bucket; refused exactly when the sort is finished and the cache not empty |
| DiskSorting.DiskSort.Finish | include/chia/DiskSort.hpp:237-244 | with the other caches flushed the buckets hold everything added |
| DiskSorting.DiskSort.ReadBucket | include/chia/DiskSort.hpp:185-234 | blocks of one bucket in ascending order of key, with the offsets of their entries, two entries being in the same block if and only if their keys agree in the first 2 * log_num_buckets bits; an error exactly when key_size < 2 * log_num_buckets |
| DiskSorting.DiskSort.InKeyOrder | include/chia/DiskSort.hpp:221-233 | the hash table read in key order with running offsets, a block for every prefix |
| DiskSorting.DiskSort.Read | include/chia/DiskSort.hpp:143-182 | the delivered blocks, concatenated, are a sorted permutation of everything added, every offset is the number of entries before, and the blocks are those of the first 2 * log_num_buckets bits |
| DiskSorting.SortAll | include/chia/DiskSort.hpp:67-182 | the same for any interleaving of adds through any number of caches |

## Left out

- File input and output, renaming and copying: buckets, tables and the plot file are sequences and arrays of entries or bytes.
- BLAKE3, ChaCha8, the f functions, keys, command line, timing and messages: y values are arbitrary.
- CreateNormalizedCount works in floating point; any distribution over 2^14 cells with at most 255 symbols takes its place (`DeltaCounts`).
- Exceptions thrown by the functions that the workers of a `ThreadPool` run. `ThreadHandoff` does model them.
- The per-thread local state of a `ThreadPool`, and submitters other than one: `take`, `wait` and `close` of a pool are documented as not thread-safe.
- CHIA_K34 layouts and the widths of stored fields other than PMAX, 32 bits for positions and 64 for line point arithmetic: among them the 10 bits in which the tables of phase 1 store a distance (`include/chia/phase1.h`), which are fewer than the 16 of the matcher.
- 32-bit registers, BMI variants, raw and RLE tables, fseU16, histograms.
- Huffman tree building, reading the weights of a header from its bytes, 4-stream decoding, and the decoding loops over the Huffman tables.
- Phase 4, headers and memo of the plot, and copying to the final directory.
- Memory orders, and the internals of std::sort, which is any function that sorts.
- NCount.ReadNCount: which malformed headers get which error code is stated for the table log only; otherwise only that whatever is accepted is a distribution.
- FseTables.BuildCTable: what it does with cells that are not the shares of the counts, which it accepts for whole laps, is not followed further; low-probability symbols alone may at most fill the table, since more are written outside it, and leave a cell when there are others.
- FseTables.BuildDTable: the same.
- Spread.SpreadSymbolsLoop: the same limit on low-probability symbols.
- FseBlock.CompressGeneric: the symbols of the source need table entries, as the original demands of its callers; what a store past the end overwrites is not modelled, here and in `NCount.WriteGeneric`.
- AnsDeltas.AnsEncodeDeltas: looks for deltas without an entry before it encodes; the original meets them on the way and reads what lies behind its table.
- Parks.WritePark: encodes the deltas before it lays out the record. The original encodes them into the record itself, passes 8 bytes a delta as the room there is, which can be more than is left of the buffer, and checks for the overflow afterwards; its 8-byte stores can then pass the end of the buffer even when the check succeeds.
- Normalization.UniformCountsFail: the failing counts given are the smallest family; the exact condition is that of `Normalization.NormalizeCount`.
- Matching.FxMatcher.FindMatchesEx: index pairs form a sequence; the arrays of kBC entries, which more matches overflow before the check against kBC, are not modelled.
- Slicing.ComputeMatches: the slicing thread, the match pool and the open pair run one after the other; that the pool keeps their order is `ThreadPool.OrderedEmission`.
- Compaction.Mark: the marking workers set bits atomically in any order; the model goes through the entries in order.
- MergeProgress.NeverStuck: a sleeping producer or worker takes its step as soon as its condition holds; that every change of the condition is followed by a notification is not modelled.
- PlotPhases.ComputePhase3: that no merge worker loses the race for the end of L is assumed of the threads (`Work`), as are writers that add every entry once; positions past 2^PMAX, whose entries are dropped on purpose, do not occur within its limits. That a table 7 in order of position comes from phase 1 is the order of its matching pass and not proved here.
- PlotTrees.TreesSurvive: distances of at least 1 and different x values are part of `WellFormed`.
- DiskSorting.DiskSort.Add: write caches are values held by the sort, one per thread, and not objects that refer to it; adds of different threads interleave entry by entry.
- DiskSorting.DiskSort.Read: buckets are read one after the other; that the read and sort pools keep their order is `ThreadPool.OrderedEmission`.
- Parks.ReadPark: the repository holds a decoder for the deltas but no reader for whole parks; this one follows the format as stated above WritePark.
- ParkFile.ReadTable: the same for a whole table.
- HuffmanX2.ReadDTableX2: symbols are not limited to bytes, and the two symbols of a cell are two fields instead of one 16-bit number.
- Huffman.ReadDTableX1: the size check against the table is left to `HuffmanX2.ReadDTableX2`.
