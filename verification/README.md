# Models of a code archive

This project models the parts of the repository that do the most work in the least space, and
proves what they are for:

- **miniz** (`makestack/firmware/miniz.h`): the whole path from bytes to a deflate stream and
  back. Frequencies become minimum-redundancy code lengths, computed in place; the lengths are
  limited, turned into canonical codes, packed into a block header; the lazy LZ77 parser fills a
  code buffer; blocks are written bit by bit, as dynamic, fixed or stored blocks. The decoder
  builds its lookup table and overflow tree, decodes symbols from a bit register, and copies
  matches. `InflateSpec` says in terms of bits and bytes alone what comes of any input, and the
  decoder is proved to do exactly that. From there it follows that it writes at most three bytes
  past the end of its output, on which inputs it does so, and that for every size of the output
  there is one. What it accepts is, but for two oddities, nothing other than streams of the format.
  `Deflater.RoundTrip` puts encoder and decoder together. The match search is proved to find the
  longest match along chains that lead to every earlier position with the same three bytes, and
  `DeflateFormat` says the format in the words of RFC 1951. The writer drops bytes past
  the end of its output buffer, as the source does; `BlockSize` proves that no block ever gets
  there, because limiting the code lengths costs at most one bit for each literal or length sent.
  Beside it: Adler-32 and the sorted index of a ZIP archive.
- **microkernel3**: rendezvous message passing with sender and receiver rights, of which every
  message asked to be sent is accepted or still held by its sender; the counted resume/block
  scheduler under it, the intrusive lists, and the map of virtual pages.
- **pyqrcode** (`2fa-cli`): Reed-Solomon error words through logarithm tables, how far apart
  the resulting code words are, and the zigzag placement of the bit stream under the masks as the
  standard draws them.
- **resea-old-c-userland**: the object arena. **iot-paas2**: the device protocol's messages, as
  device and server write and read them. **makestack serial adapter**: in-place escaping
  on the device, replacement on the host, and that the two agree.

Code that changes things in place is modelled that way: arrays, classes with `modifies` clauses
and loops, each method proved against a specification function or relation. The protocol is a
state machine (`Ipc.Step`) whose invariant is proved for every run, and `Kernel.Machine` is the
same kernel with mutable state, its run queue and wait queues linked through the threads, each
operation proved to be the step it stands for.

How the pieces build on each other:

| file | contents |
|---|---|
| `Values`, `Kraft`, `Bits`, `Bitwise` | bytes and options, powers of two, Kraft sums, bit strings, exclusive or |
| `MinRedundancy`, `MinRedundancyLevels`, `MinRedundancyCode` | the three-phase algorithm and its optimality |
| `RadixSort`, `UsedSymbols`, `Limiter`, `HuffmanTable` | from symbol counts to code lengths and codes |
| `LightPrefix`, `LimitCost`, `BlockSize` | what limiting the lengths costs, and how long a block can get |
| `Canonical`, `NodeBudget`, `DecodeTable`, `HuffmanReader` | canonical codes, the decoder's tables, decoding from the bit register |
| `LzCodes`, `Lz77`, `HashChains`, `ChainSearch`, `Compressor` | LZ77 codes, the packed code buffer, the dictionary, the match search and its chains, the lazy parser |
| `BitStream`, `MatchSymbols`, `LengthPacking`, `Deflate` | the format: bit stream, symbols, packed lengths, blocks |
| `BlockWriter`, `Deflater` | writing streams |
| `InflateSpec`, `Inflate` | what the decoder does with any bits, and the decoder |
| `InflateBounds`, `InflateSpare`, `InflateBack`, `InflateSound` | how far the decoder writes, what it makes of the bits of blocks, and what bits it takes for blocks |
| `DeflateFormat`, `KnownStreams` | the format in the terms of RFC 1951, and two streams byte by byte |
| `Adler`, `ZipIndex` | checksum, sorted index |
| `Scheduler`, `Ipc`, `IpcLog`, `IpcQueue`, `Kernel`, `IntrusiveList`, `ThreadQueue`, `RunQueue`, `WaitQueue`, `VirtualPages` | the microkernel |
| `ReedSolomon`, `GaloisTables`, `ErrorBlock`, `Syndromes`, `CodeDistance`, `Zigzag`, `ZigzagWalk`, `MaskTiles` | the QR encoder |
| `Arena`, `Telemata`, `Heartbeat`, `DeviceReceive`, `SerialEscape`, `SerialHost` | the small ones |

Where the code and its comments disagree, the code is followed. `tables.py` says that a true mask
function leaves the bit as it is; the placement code flips the bit when the function is true, and
so does `Zigzag.Written`.

## Model

| member | source | states |
|---|---|---|
| `MergeBound.NothingBeatsMerging` | makestack/firmware/miniz.h:1836-1854 | no lengths with a Kraft sum of at most one have a smaller weighted total than repeatedly merging the two smallest weights |
| `MergeTrace.ExtendValid` | makestack/firmware/miniz.h:1841-1845 | each merge of the in-place queue takes the two smallest weights left, and the recorded history stays consistent with the merging cost |
| `MergeLevels.NextLevel` | makestack/firmware/miniz.h:1846-1853 | the nodes of the next depth are exactly the children of the nodes of this one, contiguous in the array |
| `MergeLevels.DepthBound` | makestack/firmware/miniz.h:1836-1854 | a tree over positive weights that sum below the Fibonacci number of index d (2, 3, 5, ...) is less than d levels deep below its root |
| `MinimumRedundancy.MergePhase` | makestack/firmware/miniz.h:1840-1845 | the first pass leaves parent links that form the merge tree |
| `MinimumRedundancy.DepthPhase` | makestack/firmware/miniz.h:1846 | the second pass turns links into depths |
| `MinimumRedundancy.LengthPhase` | makestack/firmware/miniz.h:1847-1853 | the third pass deals out lengths: Kraft sum exactly one, and a weighted total equal to the cost of the merges |
| `MinimumRedundancy.CalculateMinimumRedundancy` | makestack/firmware/miniz.h:1836-1854 | for two or more ascending weights whose sum fits 16 bits: lengths that do not increase, Kraft sum exactly one, optimal among all Kraft-feasible lengths, at most d for positive weights that sum below the Fibonacci number of index d, so at most 22; symbols keep their places |
| `LengthLimit.FoldLong` | makestack/firmware/miniz.h:1861 | the overlong codes are counted as codes of the limit |
| `LengthLimit.SumFill` | makestack/firmware/miniz.h:1862 | the sum is the Kraft sum scaled by two to the limit |
| `LengthLimit.Excess` | makestack/firmware/miniz.h:1861-1862 | a complete code folded at the limit can only overfill it, and by less than the number of codes |
| `LengthLimit.DropOne` | makestack/firmware/miniz.h:1863-1868 | one round lengthens a code of the longest length below the limit that has one, keeps the number of codes and non-negative counts, and lowers the sum by one |
| `LengthLimit.EnforceMaxCodeSize` | makestack/firmware/miniz.h:1858-1869 | ends with as many codes as before, none over the limit, counts non-negative, Kraft sum exactly two to the limit; when no code was over the limit, nothing changes; otherwise all lengths below some length keep their codes, and lengthening that length's codes was forced by an overfull code |
| `LengthLimit.KeptNext` | makestack/firmware/miniz.h:1863-1868 | each round keeps this, at the lowest length lengthened so far |
| `LightPrefix.Cut` | makestack/firmware/miniz.h:1836-1854 | in a complete code some lightest symbols together have a share of exactly two to the minus s, for every s up to the longest length |
| `LightPrefix.Exchange` | makestack/firmware/miniz.h:1836-1854 | in an optimal code the lightest symbols with a share x weigh at least as much as those with half of it and those with a quarter of it together |
| `LightPrefix.Light` | makestack/firmware/miniz.h:1836-1854 | so the lightest symbols with a share of at most two to the minus s weigh at most one part in the Fibonacci number of index s - 2 |
| `LimitCost.CostOfLimit` | makestack/firmware/miniz.h:1858-1869 | limiting to max bits an optimal code of at most two to the b symbols costs at most (b - 1) / Fib(max - b - 3) bits for each symbol sent |
| `RadixSort.Histograms` | makestack/firmware/miniz.h:1822 | both digit histograms, in one pass |
| `RadixSort.Pass` | makestack/firmware/miniz.h:1824-1831 | one counting pass is the stable selection by digit |
| `RadixSort.PassKeepsTies` | makestack/firmware/miniz.h:1824-1831 | a pass keeps the order of records with the same key |
| `RadixSort.RadixSortSyms` | makestack/firmware/miniz.h:1819-1833 | ascending 16-bit keys and a permutation in which records with equal keys keep their order, with the second pass skipped exactly when all high bytes are zero |
| `UsedSymbols.CollectUsed` | makestack/firmware/miniz.h:1883 | the symbols that occur, in order, with their counts |
| `UsedSymbols.OptimalIsShortest` | makestack/firmware/miniz.h:1885-1893 | lengths optimal for the symbols in sorted order are optimal for the table: neither bits nor room depend on the order |
| `HuffmanTable.TallyLengths` | makestack/firmware/miniz.h:1887 | every length is within the counters, which then hold the number of codes of each length |
| `HuffmanTable.DealLengths` | makestack/firmware/miniz.h:1891-1893 | rarer symbols get the longer lengths; each length is given out as often as counted |
| `HuffmanTable.DealtShortest` | makestack/firmware/miniz.h:1885-1893 | when no optimal length is over the limit, the dealt lengths are the optimal ones: no prefix code sends the block's symbols in fewer bits |
| `HuffmanTable.DealtNear` | makestack/firmware/miniz.h:1885-1893 | when the limit was enforced, no prefix code saves more than (b - 1) / Fib(limit - b - 3) bits for each symbol, with at most two to the b symbols used |
| `HuffmanTable.DynamicSizes` | makestack/firmware/miniz.h:1878-1894 | used symbols and only those get a length within the limit, more frequent ones no longer than rarer ones; the code is complete when two or more symbols are used; no prefix code is shorter when the counts sum below the Fibonacci number indexed by the limit (2584 for 15 bits, 55 for 7), and none is shorter by more than the bound of `DealtNear` in any case; a symbol alone gets one bit |
| `HuffmanTable.AssignCodes` | makestack/firmware/miniz.h:1896-1903 | the bit-reversed numbers are the canonical words in stream order |
| `HuffmanTable.OptimizeHuffmanTable` | makestack/firmware/miniz.h:1871-1904 | all of it together: lengths as of `DynamicSizes` and the canonical codes that go with them |
| `Bits.ReverseBits` | makestack/firmware/miniz.h:1901 | the loop reverses the bits of a code |
| `Canonical.PrefixFree` | makestack/firmware/miniz.h:1512-1522 | no canonical word is a prefix of another |
| `Canonical.SomeWord` | makestack/firmware/miniz.h:1512-1522 | in a complete code every 15 bits start with a word |
| `Canonical.AcceptedFits` | makestack/firmware/miniz.h:1512-1518 | whatever passes the decoder's test has codes that fit their lengths |
| `NodeBudget.Budget` | makestack/firmware/miniz.h:1524-1531 | at most 287 nodes of the overflow tree are ever needed, so its 576 slots suffice |
| `DecodeTable.Stamp` | makestack/firmware/miniz.h:1523 | a short code is entered at every index it is a prefix of, and nowhere else |
| `DecodeTable.InsertLong` | makestack/firmware/miniz.h:1524-1531 | a long code gets a path of nodes and ends in its symbol; all other codes stay findable |
| `DecodeTable.BuildTables` | makestack/firmware/miniz.h:1511-1532 | succeeds exactly for a complete code or at most one symbol; the tables then hold the codes and nothing else, with every index in range |
| `DecodeTable.DecodesWord` | makestack/firmware/miniz.h:1413-1426 | the code of a symbol, followed by anything, decodes to that symbol and its length |
| `DecodeTable.DecodesAnything` | makestack/firmware/miniz.h:1413-1426 | with a complete code any 15 bits decode to the symbol whose word they start with |
| `HuffmanReader.FoundExtends` | makestack/firmware/miniz.h:1394-1407 | a code found in the bits at hand is the one that more bits would give |
| `HuffmanReader.Settled` | makestack/firmware/miniz.h:1413-1426 | fifteen bits settle the outcome, and no table index is out of range |
| `HuffmanReader.DecodeIs` | makestack/firmware/miniz.h:1413-1426 | on any bits, the table and the tree give the symbol and the length that the code says, also where no word starts the bits |
| `HuffmanReader.BitBufFill` | makestack/firmware/miniz.h:1394-1407 | reads bytes one at a time until a code is complete; a byte is read only when the bits before it held no code |
| `HuffmanReader.HuffDecode` | makestack/firmware/miniz.h:1413-1426 | on any bits, takes what the code lengths say: the word that the stream starts with, or, under a code that is not complete, symbol 0 for bits that no word starts; it lacks input exactly when the stream ends too early to tell; near the end of the input fewer than eight bits are left over when a byte was read |
| `BitStream.BitWriter.PutBits` | makestack/firmware/miniz.h:1906-1915 | sends exactly these bits, lowest first, whatever the fill of the register; of the bytes, those before the end of the buffer are kept and the others dropped |
| `BitStream.BitReader.NeedByte` | makestack/firmware/miniz.h:1370-1386 | moves the next byte into the register without changing the stream; fails exactly at the end of the input |
| `BitStream.BitReader.GetBits` | makestack/firmware/miniz.h:1386-1388 | takes the next bits as a number; fails exactly when there are too few; reads no byte that is not needed |
| `BitStream.BitReader.GetByte` | makestack/firmware/miniz.h:1463-1471 | the next aligned byte, from the register or the input |
| `MatchSymbols.LengthBack` | makestack/firmware/miniz.h:1767-1781 | the decoder's base and extra bits give back every length from the encoder's symbol and low bits |
| `MatchSymbols.DistanceBack` | makestack/firmware/miniz.h:1783-1815 | the same for all 32768 distances |
| `LengthPacking.Packer.FlushRepeats` | makestack/firmware/miniz.h:1917-1923 | pending repeats become literals or symbol 16, as for the repeats of one run, without changing what the packets stand for |
| `LengthPacking.Packer.FlushZeros` | makestack/firmware/miniz.h:1925-1932 | pending zeros become literals, symbol 17 or symbol 18, as for one run |
| `LengthPacking.Pack` | makestack/firmware/miniz.h:1951-1977 | the packets are those of the runs of equal lengths, each run by itself; unpacking gives the list back, the packed form takes no more places than the list, and the histogram is that of the packed symbols |
| `LengthPacking.LastRunIs` | makestack/firmware/miniz.h:1951-1976 | the runs are as long as they can be |
| `Deflate.TrimKeeps` | makestack/firmware/miniz.h:1946-1947 | leaving out unused symbols at the end changes no word and keeps the code acceptable |
| `Deflate.FixedAccepted` | makestack/firmware/miniz.h:1998-2011 | the fixed lengths are complete codes of 288 and 32 words; `DeflateFormat.FixedWords` says which |
| `DeflateFormat.FixedWords` | makestack/firmware/miniz.h:1998-2011 | the word of each of the 288 symbols is the one that section 3.2.6 of RFC 1951 lists |
| `DeflateFormat.FixedDistanceWords` | makestack/firmware/miniz.h:1496-1501 | the distance words are the numbers from 0 to 31 in five bits |
| `DeflateFormat.ConsecutiveWords` | makestack/firmware/miniz.h:1896-1903 | words of one length are consecutive numbers in the order of their symbols |
| `DeflateFormat.ShorterWordsFirst` | makestack/firmware/miniz.h:1896-1903 | shorter words come before longer ones in the order of their bits |
| `DeflateFormat.ZeroWordFirst` | makestack/firmware/miniz.h:1896-1903 | the first symbol of the least length has the word of zeros |
| `DeflateFormat.LengthSymbols` | makestack/firmware/miniz.h:1430-1431 | the lengths from 3 to 258 follow each other, four symbols to each number of extra bits, as in section 3.2.5 |
| `DeflateFormat.DistanceSymbols` | makestack/firmware/miniz.h:1432-1433 | so do the distances from 1 on, two symbols to each number of extra bits |
| `DeflateFormat.SwizzleOrder` | makestack/firmware/miniz.h:1434 | the order of the code-length code is that of section 3.2.7: the repeats, zero, then outward from eight |
| `DeflateFormat.RepeatRanges` | makestack/firmware/miniz.h:1533-1550 | the repeat symbols stand for 3 to 6, 3 to 10 and 11 to 138 lengths, and for each number of these |
| `DeflateFormat.HeaderOrder` | makestack/firmware/miniz.h:1981-1995 | where the three numbers stand in the header of a dynamic block, less 257, 1 and 4 |
| `DeflateFormat.ClOrder` | makestack/firmware/miniz.h:1985-1988 | and where the lengths of the code-length code stand |
| `Deflate.BlocksBitsNext` | makestack/firmware/miniz.h:2185 | a block behind blocks none of which is final extends the stream |
| `BlockWriter.TallySymbols` | makestack/firmware/miniz.h:2467-2495 | the counts are the numbers of occurrences of each symbol in the recorded codes; the 16-bit counters do not wrap |
| `BlockSize.HeldIsBuffered` | makestack/firmware/miniz.h:2600-2602 | codes recorded in one buffer take at most eight times its size in bits, counting a literal as nine and a match as 25 |
| `BlockSize.CostBySymbol` | makestack/firmware/miniz.h:2108-2151 | the bits of the codes are the weighted lengths of the symbol counts plus the extra bits |
| `BlockSize.LitCheap` | makestack/firmware/miniz.h:1871-1894 | literals and lengths take at most one bit each more with the block's own table than with the fixed one |
| `BlockSize.DistCheap` | makestack/firmware/miniz.h:1871-1894 | distances take at most an eighth of a bit each more |
| `BlockSize.FixedShort` | makestack/firmware/miniz.h:2208-2213 | a block of a full code buffer with the fixed tables takes at most 678400 bits |
| `BlockSize.DynamicShort` | makestack/firmware/miniz.h:2208-2213 | so does one with its own tables: the fallback for a block that does not fit is never needed |
| `BlockWriter.CodeTable` | makestack/firmware/miniz.h:1943-1947 | a code for the counts, trimmed: every counted symbol has a word within the limit, and the bounds of `DynamicSizes` hold |
| `BlockWriter.BuildTables` | makestack/firmware/miniz.h:1941-1988 | the header's tables are consistent, acceptable, and cover every code of the block |
| `BlockWriter.PutHeader` | makestack/firmware/miniz.h:1981-1995 | sends exactly the bits of the header |
| `BlockWriter.PutBody` | makestack/firmware/miniz.h:2108-2149 | sends the words and extra bits of the codes, then the end of the block |
| `BlockWriter.PutFixed` | makestack/firmware/miniz.h:1998-2014 | a block with the fixed codes, whose words are those of `DeflateFormat.FixedWords` |
| `BlockWriter.PutDynamic` | makestack/firmware/miniz.h:1936-1996 | a block with its own tables |
| `BlockWriter.PutStored` | makestack/firmware/miniz.h:2197-2206 | a stored block, aligned to a byte, with its length and the complement |
| `BlockWriter.FlushBlock` | makestack/firmware/miniz.h:2162-2213 | the stream gains one well-formed block of the codes or of the same bytes, no byte of it is dropped, and at least 100 bytes of the output buffer are left for what a flush adds; the bytes are sent exactly when that is asked for or the codes take as many bytes less one, if they are still there, and the block then takes at most 42 bits more than they do |
| `BlockWriter.PutBlock` | makestack/firmware/miniz.h:2188-2213 | exactly which form is chosen, with fixed codes for fewer than 48 bytes or by request; after an attempt is taken back, a well-formed block of at most 678400 bits |
| `BlockWriter.SyncFlush` | makestack/firmware/miniz.h:2224 | an empty stored block that ends on a byte boundary |
| `BlockWriter.Finish` | makestack/firmware/miniz.h:2219 | zero bits to the end of the last byte |
| `LzCodes.CopyIsHistory` | makestack/firmware/miniz.h:2299-2325 | copying a verified match reproduces the history it was found in |
| `LzCodes.Faithful` | makestack/firmware/miniz.h:2467-2495 | recording a byte or a verified match keeps the expansion equal to the input |
| `CodeBuffer.RecordOpen` | makestack/firmware/miniz.h:2467-2490 | a code recorded in an open group |
| `CodeBuffer.RecordLast` | makestack/firmware/miniz.h:2467-2490 | the eighth code closes the group and reserves the next flag byte |
| `CodeBuffer.CloseBuffer` | makestack/firmware/miniz.h:2177-2178 | closing shifts the last flags down, or drops an empty group |
| `CodeBuffer.Replay` | makestack/firmware/miniz.h:2108-2145 | reading the flag bytes and codes yields the recorded sequence |
| `Dictionary.PutByte` | makestack/firmware/miniz.h:2516-2531 | the circular dictionary and its mirrored start hold the newest bytes |
| `MatchFinder.FindMatch` | makestack/firmware/miniz.h:2299-2325 | whatever the chains hold, the result is the first of the longest matches among the candidates that the chain leads to, up to the one where the search ends, if longer than the match before; and it is a match in the history, within the distance and length allowed |
| `MatchFinder.NextCandidate` | makestack/firmware/miniz.h:2308-2317 | stops at exactly the next candidate that agrees on the two bytes that decide, or where the search ends; no candidate passed over makes a longer match |
| `MatchFinder.Longest` | makestack/firmware/miniz.h:2299-2325 | no candidate looked at agrees on more bytes than the match found |
| `MatchFinder.FirstLongest` | makestack/firmware/miniz.h:2299-2325 | the match found is that of the first candidate that agrees on so many |
| `MatchFinder.EnoughLooks` | makestack/firmware/miniz.h:2308-2317 | when the probes run out, at least that many candidates less one have been looked at |
| `HashChains.RollingHash` | makestack/firmware/miniz.h:2509-2518 | the hash rolled on by a byte is the hash of the next three bytes |
| `HashChains.HeadIsNewest` | makestack/firmware/miniz.h:2519 | entering positions one after the other leaves at the head of each chain the newest one with that hash |
| `HashChains.LinksBack` | makestack/firmware/miniz.h:2519 | and links each position to the newest earlier one with its hash |
| `ChainSearch.VisitedIff` | makestack/firmware/miniz.h:2312-2315 | along such chains the walk comes to a position in reach with the same hash if and only if from it on no such position ends in sixteen zero bits |
| `ChainSearch.NothingMissed` | makestack/firmware/miniz.h:2299-2325 | a search that ends before its probes has found the longest match in reach, but for those beyond a position that ends in sixteen zero bits |
| `ChainSearch.FirstUnseen` | makestack/firmware/miniz.h:2313 | so a match with the very first position is never found: four equal bytes at the start hold no match |
| `MatchFinder.RunLength` | makestack/firmware/miniz.h:2550-2552 | the longest run of the byte before the position, up to the lookahead |
| `Lz77.Compressor.constructor` | makestack/firmware/miniz.h:2698-2714 | whatever the dictionary, the chains, the hash table and the code buffer held before, the compressor starts in order, with the probes that the setting gives |
| `Lz77.Compressor.Record` | makestack/firmware/miniz.h:2467-2495 | the buffer holds one more code |
| `Lz77.Compressor.Fill` | makestack/firmware/miniz.h:2506-2540 | the lookahead is filled as far as the source goes, the dictionary stays a window on the history, and the chains are those of all positions since the last reset, entered in order |
| `Lz77.Compressor.Search` | makestack/firmware/miniz.h:2545-2562 | finds the run of the last byte or what the chain search finds, and keeps it unless it does not pay; what is taken as a match is one |
| `Lz77.Compressor.Exhaustive` | makestack/firmware/miniz.h:2545-2559 | in every reachable state of the compressor, a search that ends before its probes and before the lookahead has found the longest match in the dictionary, but for those beyond a position that ends in sixteen zero bits |
| `Lz77.Compressor.ParseStep` | makestack/firmware/miniz.h:2545-2599 | each step of the lazy parser records exactly the codes that the match found and the match put off call for, moves on by so much, and keeps the codes, plus the byte held back, equal to the bytes consumed |
| `Lz77.Compressor.FlushBlock` | makestack/firmware/miniz.h:2177-2178 | the open codes, as replayed from the buffer, are handed over and the buffer starts empty |
| `Lz77.Compressor.RawBlock` | makestack/firmware/miniz.h:2193-2206 | the bytes of the block are still in the dictionary exactly when the test says so, and are then read back from it |
| `Lz77.Compressor.ResetDictionary` | makestack/firmware/miniz.h:2686 | the chains are empty and start over at the present position; everything else stays consistent |
| `Deflater.Deflater.EmitBlock` | makestack/firmware/miniz.h:2162-2261 | one more block of the stream, standing for the open codes; nothing is dropped |
| `Deflater.Deflater.CutBlock` | makestack/firmware/miniz.h:2600-2607 | a block is written exactly when the code buffer is full or holds much input that does not shrink; no code is lost |
| `Deflater.Deflater.EndCall` | makestack/firmware/miniz.h:2215-2227 | the last block, with the padding or the empty block of a flush, fits the output buffer; the blocks then stand for all bytes so far |
| `Deflater.Deflater.CompressNormal` | makestack/firmware/miniz.h:2497-2613 | the input is consumed, and the blocks, the open codes and the byte held back stand for exactly what was consumed |
| `Deflater.Deflater.Compress` | makestack/firmware/miniz.h:2636-2690 | after a flush the blocks stand for all bytes of all calls; after the last one the stream is finished |
| `Deflater.Deflater.CompressAll` | makestack/firmware/miniz.h:1079-1109 | calling again after every wait ends, with the whole input taken in and the flush carried out |
| `Deflater.RoundTrip` | makestack/firmware/miniz.h:1457-1675 | for every sequence of inputs and flushes ended by a finish, every setting, every previous content of memory and whenever output has to wait, decompressing the compressed stream gives the concatenated input back; the output buffer never drops a byte |
| `Inflate.CopyMatch` | makestack/firmware/miniz.h:1615-1667 | a match is copied as a whole, or as far as there is room; a length of zero copies three bytes wherever the output is not past its end, and `Overrun` says that memory did not go that far |
| `Inflate.CopyThrees` | makestack/firmware/miniz.h:1654-1667 | the loop of three bytes a turn is the byte-by-byte copy, overlapping or not, and at distance zero leaves what memory held; it writes three bytes when asked for none |
| `Inflate.ReadMatch` | makestack/firmware/miniz.h:1607-1613 | on any bits, length and distance are those of the extra bits and the distance symbol behind the length symbol, and the bits left are those behind them |
| `Inflate.DecodeBody` | makestack/firmware/miniz.h:1552-1668 | on any input, status, bytes and remaining bits are those of the reference decoder for the body of a block |
| `Inflate.ReadClLengths` | makestack/firmware/miniz.h:1505-1506 | three bits for each length of the code-length code, in the swizzled order; it lacks input exactly when these bits are not there |
| `Inflate.ReadLengths` | makestack/firmware/miniz.h:1533-1550 | on any bits, the lengths that the packets unpack to, with every refusal; never more than 457 entries |
| `Inflate.ReadHeader` | makestack/firmware/miniz.h:1504-1551 | on any bits, tables for the two codes that the header describes, or the reason why there are none |
| `Inflate.ReadStored` | makestack/firmware/miniz.h:1462-1488 | on any bits, the bytes of a stored block after its alignment and its length, as far as there is input and room |
| `Inflate.InflateBlock` | makestack/firmware/miniz.h:1459-1669 | on any bits, one block of any type is what the reference decoder makes of it |
| `Inflate.Decompress` | makestack/firmware/miniz.h:1457-1675 | on any input the decoder ends with the status, the bytes and the remaining bits of the reference decoder; it writes past the end of the output exactly when one of the turns of that decoder spills; three spare bytes are always enough |
| `InflateBounds.LengthOf` | makestack/firmware/miniz.h:1430-1431 | a match has no length exactly for length symbols 286 and 287, and else at least three |
| `InflateBounds.BodyBounded` | makestack/firmware/miniz.h:1614-1668 | in the body of a block at most three bytes are written past the end, and some are exactly when a turn is a 286 or 287 with a distance that is there and fewer than three bytes left |
| `InflateBounds.StreamBounded` | makestack/firmware/miniz.h:1457-1669 | the same for whole streams, where past the end nothing more is written |
| `InflateSpare.SpareNeeded` | makestack/firmware/miniz.h:1622-1660 | for every size of the output there is an input that makes the decoder write three bytes past its end |
| `InflateBack.TurnBack` | makestack/firmware/miniz.h:1607-1613 | a literal or a match is read back, whatever follows it |
| `InflateBack.BodyBack` | makestack/firmware/miniz.h:1552-1668 | the body of a block gives what its codes expand to |
| `InflateBack.LensBack` | makestack/firmware/miniz.h:1533-1550 | the code lengths are unpacked as they were packed |
| `InflateBack.HeaderBack` | makestack/firmware/miniz.h:1504-1551 | a written header gives back its code lengths |
| `InflateBack.BlockBack` | makestack/firmware/miniz.h:1459-1669 | a stored, fixed or dynamic block gives what it stands for |
| `InflateBack.GivesBack` | makestack/firmware/miniz.h:1457-1675 | from the bits of any sequence of blocks, whatever follows them, exactly the bytes they stand for, and the bits behind them |
| `InflateSound.TurnSound` | makestack/firmware/miniz.h:1552-1613 | a symbol read that has a word and belongs to the format is a byte or a length and a distance, with its bits |
| `InflateSound.BodySound` | makestack/firmware/miniz.h:1552-1668 | bits taken for the body of a block are such symbols and the end of the block, and give what these stand for |
| `InflateSound.LensSound` | makestack/firmware/miniz.h:1533-1550 | bits taken for code lengths are packets that unpack to them |
| `InflateSound.HeaderSound` | makestack/firmware/miniz.h:1504-1551 | bits taken for the header of a dynamic block are a header with these codes |
| `InflateSound.StoredSound` | makestack/firmware/miniz.h:1462-1488 | bits taken for a stored block are its length, the complement of that and its bytes |
| `InflateSound.BlockSound` | makestack/firmware/miniz.h:1459-1669 | bits taken for a block are a block of one of the three types |
| `InflateSound.StreamSound` | makestack/firmware/miniz.h:1457-1675 | whatever the decoder takes for a whole stream is one: the bits of blocks of which the last is marked final, with the output that they stand for, unless it read bits that are no word, or a symbol that the format leaves out |
| `KnownStreams.FixedLetter` | makestack/firmware/miniz.h:1494-1501 | the bytes 4b 04 00 are the letter a with the fixed codes |
| `KnownStreams.StoredLetter` | makestack/firmware/miniz.h:1462-1488 | the bytes 01 01 00 fe ff 61 are the letter a in a stored block |
| `Adler.NoOverflow` | makestack/firmware/miniz.h:977-990 | over 5552 bytes neither 32-bit sum wraps, even from halves of 65535 |
| `Adler.Block` | makestack/firmware/miniz.h:981-987 | a block in steps of eight gives the byte-wise sums |
| `Adler.Adler32` | makestack/firmware/miniz.h:977-990 | the blocked checksum is the byte-at-a-time definition |
| `Adler.Chains` | makestack/firmware/miniz.h:977-990 | a checksum continued is the checksum of the concatenation |
| `Adler.BaseIsPrime` | makestack/firmware/miniz.h:987 | the modulus is a prime |
| `Adler.LargestPrime` | makestack/firmware/miniz.h:987 | every number between it and 65536 has a divisor |
| `Adler.LongestBlock` | makestack/firmware/miniz.h:979-987 | 5552 bytes are the most: with 5553 a sum can wrap |
| `Adler.KnownChecksum` | makestack/firmware/miniz.h:977-990 | the checksum of the word Wikipedia is 11e60398 |
| `ZipIndex.FoldsCapitals` | makestack/firmware/miniz.h:2947 | each of the 26 capital letters counts as its small one, and every other byte as itself |
| `ZipIndex.FilenameLess` | makestack/firmware/miniz.h:3107-3122 | dictionary order of the case-folded names |
| `ZipIndex.FilenameCompare` | makestack/firmware/miniz.h:3460-3474 | three-way comparison in that order |
| `ZipIndex.Sift` | makestack/firmware/miniz.h:3138-3146 | one entry sinks to its place; the rest stays a heap |
| `ZipIndex.SortByFilename` | makestack/firmware/miniz.h:3127-3166 | a permutation of the index, ordered by folded name |
| `ZipIndex.LocateBinary` | makestack/firmware/miniz.h:3476-3496 | finds an entry with the folded name exactly when there is one |
| `ZipIndex.LocateLinear` | makestack/firmware/miniz.h:3505-3535 | the scan finds the first such entry; no name over 65535 bytes can be there |
| `ZipIndex.SearchesAgree` | makestack/firmware/miniz.h:3498-3536 | over an index of all entries the search finds something exactly when the scan does |
| `ZipIndex.BuildIndex` | makestack/firmware/miniz.h:3240-3265 | the index of all entries, in order |
| `ZipIndex.LocateBothWays` | makestack/firmware/miniz.h:3498-3536 | building the index, searching it and scanning the entries: both find an entry of that folded name, or neither does |
| `Scheduler.RunsSound` | microkernel3/kernel/thread.c:173-230 | in every run the run queue holds each runnable thread but the current one exactly once and nothing else, and runnable means a positive count |
| `Scheduler.EveryoneRuns` | microkernel3/kernel/thread.c:199-230 | the thread at place i of the queue runs after i + 1 switches |
| `Scheduler.CountsBalance` | microkernel3/kernel/thread.c:173-196 | in every run the count of a thread but the idle one is its first count plus how often it was resumed less how often it blocked |
| `Scheduler.BlocksAtLast` | microkernel3/kernel/thread.c:189-196 | a thread that blocks goes on running exactly when its count was above one, and then only its count changes |
| `Ipc.StepKeeps` | microkernel3/kernel/ipc.c:148-217 | every step of every thread keeps the protocol invariant |
| `Ipc.ReturnReady` | microkernel3/kernel/ipc.c:187-217 | a resumed receiver always finds a delivered message; it never has to wait again |
| `Ipc.WaitedSenderReady` | microkernel3/kernel/ipc.c:392-415 | a sender that waited with the right finds its receiver, never a null one |
| `Ipc.RunsKeep` | microkernel3/kernel/ipc.c:359-484 | the invariant holds in every state of every run from a fresh machine |
| `Ipc.InOrderOnce` | microkernel3/kernel/ipc.c:148-217 | on every channel the messages returned are those accepted, in order, plus at most one that lies in the resumed receiver's buffer; `IpcLog.SentIsAccepted` says where those accepted come from |
| `IpcLog.SentIsAccepted` | microkernel3/kernel/ipc.c:359-484 | in every run, what a thread asked to send on a channel is what the channel accepted from it, in order, followed by at most one message that it still holds |
| `IpcLog.NoneLostNoneMade` | microkernel3/kernel/ipc.c:359-484 | over all threads, the messages asked for are those accepted and those held, each as often |
| `IpcLog.AcceptedLog` | microkernel3/kernel/ipc.c:359-419 | the log of a channel is what was accepted on it |
| `IpcLog.ReturnedWasAccepted` | microkernel3/kernel/ipc.c:148-217 | what receivers got is a beginning of what was accepted |
| `IpcQueue.FirstServed` | microkernel3/kernel/ipc.c:174-184 | in every run, the threads that came to wait for the right to send on a channel, in order, are those that were called, in order, and then those still in its queue |
| `Ipc.ReceiversGetServed` | microkernel3/kernel/ipc.c:171-188 | in every run, whenever a receiver waits and some sender holds the channel or is queued, some sender to that channel is runnable |
| `Kernel.Machine.constructor` | microkernel3/kernel/thread.c:64-72 | threads that have been resumed once and take turns, an idle thread and unused channels make a fresh machine; its queues share no elements |
| `Kernel.Machine.ThreadResume` | microkernel3/kernel/thread.c:173-179 | is the resume step, on the linked run queue; the wait queues stay as they are |
| `Kernel.Machine.ThreadSwitch` | microkernel3/kernel/thread.c:199-230 | is the switch step, likewise |
| `Kernel.Machine.ThreadBlockCurrent` | microkernel3/kernel/thread.c:189-196 | is the block step, likewise |
| `Kernel.Machine.SendSlowpath` | microkernel3/kernel/ipc.c:359-419 | is the slow send up to its return or block, which `IpcLog.SlowBalance` proves to accept the message or hold it |
| `Kernel.Machine.SysSend` | microkernel3/kernel/ipc.c:422-484 | is the send step, with its errors; the fast path and the slow path do not differ |
| `Kernel.Machine.ChannelRecv` | microkernel3/kernel/ipc.c:148-188 | is the receive step, with its errors |
| `Kernel.Machine.Continue` | microkernel3/kernel/ipc.c:187-217 | the rest of a blocked call; a receive returns the oldest message not yet returned |
| `Kernel.Rendezvous` | microkernel3/kernel/ipc.c:148-217 | a receive, a send from another thread and the rest of the receive yield the message sent |
| `Kernel.RendezvousSendFirst` | microkernel3/kernel/ipc.c:359-419 | so do a send that has to wait, a receive from another thread, the rest of the send and the rest of the receive |
| `IntrusiveList.List.Append` | microkernel3/kernel/list.c:10-23 | appends exactly when the element is not in the list; otherwise what follows it is lost, and a last element comes to point at itself |
| `IntrusiveList.List.Pop` | microkernel3/kernel/list.c:27-36 | takes the first element, if any |
| `ThreadQueue.Enqueue` | microkernel3/kernel/thread.c:133-137 | a thread that is not queued is appended to the linked queue, in place, and the order of the others stays |
| `RunQueue.Processor.Resume` | microkernel3/kernel/thread.c:173-179 | on the linked queue this is the resume step; what it appends is never in the list already |
| `RunQueue.Processor.Switch` | microkernel3/kernel/thread.c:199-230 | the same for the switch step |
| `RunQueue.Processor.BlockCurrent` | microkernel3/kernel/thread.c:189-196 | the same for the block step |
| `WaitQueue.Waiters.Append` | microkernel3/kernel/ipc.c:374-380 | a thread that waits nowhere is appended to one of the linked wait queues; all queues stay whole, though they are linked through one element per thread |
| `WaitQueue.Waiters.TakeFirst` | microkernel3/kernel/ipc.c:176-183 | takes the sender who waits longest; the other queues stay as they are |
| `WaitQueue.NotWaiting` | microkernel3/kernel/ipc.c:374-380 | in every reachable state the running thread is in no wait queue, so an append never breaks the list |
| `VirtualPages.VmSpace.Valloc` | microkernel3/kernel/memory.c:72-102 | takes the lowest free run; the pages stay tiled; zero means that there is none if and only if the area does not start at address zero or its first pages are not free |
| `VirtualPages.AreaAtZero` | microkernel3/kernel/memory.c:72-102 | in an area at address zero the first call succeeds and answers zero |
| `VirtualPages.VmSpace.Vfree` | microkernel3/kernel/memory.c:104-114 | releases exactly the pages of the run |
| `VirtualPages.MarkTiles` | microkernel3/kernel/memory.c:84-98 | a new run overlaps none and keeps the tiling |
| `VirtualPages.FreeTiles` | microkernel3/kernel/memory.c:104-114 | so does taking one away |
| `GaloisField.DoubleAdds` | 2fa-cli/pyqrcode/tables.py:588-604 | doubling modulo 0x11D distributes over exclusive or |
| `GaloisTables.LogIsPower` | 2fa-cli/pyqrcode/tables.py:588-604 | entry i of the first table is two to the i |
| `GaloisTables.AntilogInverts` | 2fa-cli/pyqrcode/tables.py:611-627 | the second table inverts the first |
| `GaloisTables.TableProduct` | 2fa-cli/pyqrcode/builder.py:477-486 | the sum of exponents, reduced as the code reduces it, looks up the product in the field |
| `PolyDivision.Division` | 2fa-cli/pyqrcode/builder.py:467-489 | message equals quotient times generator plus remainder |
| `PolyDivision.Divisible` | 2fa-cli/pyqrcode/builder.py:434-495 | data followed by the error words is a multiple of the generator |
| `PolyDivision.OnlyErrorWords` | 2fa-cli/pyqrcode/builder.py:434-495 | and no other words make it one |
| `PolyDivision.ErrorWordsAdd` | 2fa-cli/pyqrcode/builder.py:434-495 | the error words of the exclusive or of two blocks are the exclusive or of theirs |
| `ErrorBlock.Subtract` | 2fa-cli/pyqrcode/builder.py:476-489 | the inner loop takes the coefficient's multiple of the generator off |
| `ErrorBlock.MakeErrorBlock` | 2fa-cli/pyqrcode/builder.py:434-495 | the leading words are the remainder by the tabulated generator; the rest is zero padding to the length of the data block |
| `Syndromes.Recurrence` | 2fa-cli/pyqrcode/tables.py:557-582 | in every tabulated generator, neighbouring coefficients are in the ratio of a Gaussian binomial |
| `Syndromes.NoZeroDivisors` | 2fa-cli/pyqrcode/tables.py:588-627 | two different powers of two never scale a nonzero element alike |
| `Syndromes.GeneratorVanishes` | 2fa-cli/pyqrcode/tables.py:557-582 | the sum of a tabulated generator's terms is zero at two to the s, for each s below its degree |
| `Syndromes.MultipleVanishes` | 2fa-cli/pyqrcode/builder.py:467-489 | so is every polynomial multiple of it |
| `Syndromes.CodeWordVanishes` | 2fa-cli/pyqrcode/builder.py:434-495 | every data block followed by its error words has all syndromes zero: as a polynomial it vanishes at 1, 2, 4, ... up to two to the number of error words less one |
| `CodeDistance.MoreThanRoots` | 2fa-cli/pyqrcode/tables.py:588-627 | a word of at most 255 places, not all zero, that vanishes at k successive powers of two from one on has more than k places that are not zero |
| `CodeDistance.CodeWordsApart` | 2fa-cli/pyqrcode/builder.py:434-495 | two different blocks of the same length, with their n error words at most 255 words in all, differ in at least n + 1 places |
| `Zigzag.PairCovers` | 2fa-cli/pyqrcode/builder.py:684-694 | each column pair covers its own two columns and never the timing column |
| `Zigzag.ColumnCovered` | 2fa-cli/pyqrcode/builder.py:684-694 | every other column belongs to one pair |
| `Zigzag.PlacePair` | 2fa-cli/pyqrcode/builder.py:696-722 | one pair, up or down, fills the blank modules of its part of the path |
| `Zigzag.MakeMask` | 2fa-cli/pyqrcode/builder.py:676-722 | every blank module is written, along the path that the template gives, with the next masked bit or a masked zero; nothing else changes; `ZigzagWalk.PathIsWalk` and `MaskTiles.PatternsDrawn` say what path and masks are |
| `Zigzag.WrittenOnce` | 2fa-cli/pyqrcode/builder.py:685-722 | on any template the path visits no module twice |
| `Zigzag.PathInOrder` | 2fa-cli/pyqrcode/builder.py:684-694 | every module of the path comes before all that follow it in the order of the loops |
| `ZigzagWalk.PathIsWalk` | 2fa-cli/pyqrcode/builder.py:676-722 | the path is the blank modules of a walk from the lower right corner, two columns wide, turning at the edges and stepping over the timing column |
| `Zigzag.ReadsBack` | 2fa-cli/pyqrcode/tables.py:752-760 | reading along the path that the template gives and taking the mask off yields the bits, then zeros |
| `MaskTiles.PatternsDrawn` | 2fa-cli/pyqrcode/tables.py:752-760 | each of the eight mask functions is the tile that ISO/IEC 18004 draws, repeated |
| `MaskTiles.WrittenOver` | 2fa-cli/pyqrcode/builder.py:718-721 | a written module is dark exactly when its bit differs from the drawing |
| `Arena.Pool.constructor` | resea-old-c-userland/kernel/memory.c:35-45 | one run of all objects |
| `Arena.Pool.PopFront` | resea-old-c-userland/libs/libcommon/include/list.h:55-66 | takes the first header out of the ring of links that runs through the free objects; only the links of other headers change |
| `Arena.Pool.PushBack` | resea-old-c-userland/libs/libcommon/include/list.h:23-52 | puts a header at the end of the ring; only links change |
| `Arena.Pool.Alloc` | resea-old-c-userland/kernel/memory.c:49-72 | hands out an object that was not live; fails exactly when all are; what live objects hold does not change, though headers and their links are kept in the objects |
| `Arena.Pool.Free` | resea-old-c-userland/kernel/memory.c:75-77 | takes a live object back and puts a header into it; the other live objects keep what they hold |
| `Arena.HeadersStay` | resea-old-c-userland/kernel/memory.c:15-32 | writing to a live object changes no header of the free list |
| `Arena.TakeOne` | resea-old-c-userland/kernel/memory.c:54-67 | live objects and free runs stay a partition, with counts that add up |
| `Arena.LiveApart` | resea-old-c-userland/kernel/memory.c:49-72 | live objects lie inside the arena and do not overlap |
| `Telemata.VarLenBack` | iot-paas2/lib/telemata.ts:32-65 | every natural number is read back, whatever follows it |
| `Telemata.GenerateVariableLength` | iot-paas2/lib/telemata.ts:32-44 | the loop computes the encoding |
| `Telemata.ParseVariableLength` | iot-paas2/lib/telemata.ts:46-65 | the loop computes the decoding, or fails on a truncated number |
| `Telemata.Serialize` | iot-paas2/lib/telemata.ts:79-108 | header, commands in order, update |
| `Telemata.Deserialize` | iot-paas2/lib/telemata.ts:110-165 | the loop over the messages, with its errors and the fields of a device state; `Heartbeat.AnyMessages` says what comes of any of them |
| `Telemata.RoundTrip` | iot-paas2/lib/telemata.ts:79-165 | reading what was written gives the same version and the object that the commands, assigned in order, make |
| `Telemata.EntriesMakeMap` | iot-paas2/lib/telemata.ts:82-94 | assigning any listing of a map's entries to an empty object makes that map again, without the key `__proto__` |
| `Telemata.CommandsBack` | iot-paas2/lib/telemata.ts:79-165 | commands kept by name come back exactly when none of them is named `__proto__` |
| `Heartbeat.AnyMessages` | iot-paas2/lib/telemata.ts:110-165 | for any list of messages: an error exactly for a wrong version or a message that is not proper; otherwise the last of each kind counts, and unknown kinds change nothing |
| `Heartbeat.FillVariableLength` | iot-paas2/esp32/src/telemata.cpp:50-59 | the digits of a length, the lowest first, as far as there is room |
| `Heartbeat.PayloadBuilder.Append` | iot-paas2/esp32/src/telemata.cpp:33-44 | a message is added if it fits, and the result says so; otherwise nothing changes |
| `Heartbeat.Send` | iot-paas2/esp32/src/telemata.cpp:204-236 | the device writes its name, its state and its log, each if it fits, behind the version and the length |
| `Heartbeat.StateBack` | iot-paas2/lib/telemata.ts:137-144 | the server reads state, board, version and free memory where the device put them; whether there is a battery it takes from a byte that the device does not set |
| `Heartbeat.HeartbeatBack` | iot-paas2/lib/telemata.ts:110-165 | a heartbeat that fits comes back as its name, state and log when the name is not empty |
| `Heartbeat.NamelessLost` | iot-paas2/esp32/src/telemata.cpp:50-58 | with an empty name and no log the state never arrives: no length is written for the name |
| `DeviceReceive.ParseVariable` | iot-paas2/esp32/src/telemata.cpp:89-105 | the loop reads a number, or fails with what its digits make so far |
| `DeviceReceive.Command` | iot-paas2/esp32/src/telemata.cpp:107-122 | the call that a command makes, with every way in which it makes none |
| `DeviceReceive.ReceivePayload` | iot-paas2/esp32/src/telemata.cpp:126-202 | on any memory, the calls made, the update and the value returned |
| `DeviceReceive.DeviceObeys` | iot-paas2/esp32/src/telemata.cpp:126-202 | of a payload from the server, whatever lies behind it: the commands in order, as strings that end at a zero, and the update; without one it goes on behind the payload, with as many bytes counted as left as the header took |
| `DeviceReceive.StopsAtEnd` | iot-paas2/esp32/src/telemata.cpp:149-150 | it stops at the end of a payload without an update exactly when the messages take fewer than 128 bytes |
| `SerialEscape.NoDelimiter` | makestack/firmware/serial_adapter.cpp:13-34 | an escaped payload does not contain 0x0a |
| `SerialEscape.EscapedLength` | makestack/firmware/serial_adapter.cpp:13-34 | its length is the payload's plus the number of 0x0a and 0xee bytes |
| `SerialEscape.EscapePayload` | makestack/firmware/serial_adapter.cpp:13-34 | the in-place escaping, whenever its moves stay inside the buffer; the result is the escaped payload, or zero when that does not fit; how far the moves reach |
| `SerialEscape.StaysInside` | makestack/firmware/serial_adapter.cpp:16-27 | the moves stay inside the buffer if and only if there is a byte beyond the stated length, or the payload fills that length, or the escaped payload leaves a byte of it over |
| `SerialEscape.OneByteOver` | makestack/firmware/serial_adapter.cpp:24 | a delimiter in a buffer of two bytes: the escaped payload fits, and the move writes one byte past the end |
| `SerialEscape.UnescapePayload` | makestack/firmware/serial_adapter.cpp:88-114 | the in-place unescaping; fails exactly on an unknown sequence |
| `SerialEscape.RoundTrip` | makestack/firmware/serial_adapter.cpp:13-114 | unescaping undoes escaping |
| `SerialHost.BufferReplace` | makestack/src/helpers.ts:14-31 | every occurrence is replaced, from the left, and what was put in is not looked at again |
| `SerialHost.EscapesAlike` | makestack/src/adapters/serial_adapter.ts:9-20 | the host's two replacements escape as the firmware does |
| `SerialHost.UnescapesAlike` | makestack/src/adapters/serial_adapter.ts:26-43 | whatever the firmware accepts, the host makes the same of it |
| `SerialHost.BackOnBothSides` | makestack/src/adapters/serial_adapter.ts:9-43 | on either side what the other one escaped comes back |
| `SerialHost.HostLetsThrough` | makestack/src/adapters/serial_adapter.ts:32-41 | an unknown sequence that the firmware refuses goes through on the host |
| `SerialHost.EncodePacket` | makestack/src/adapters/serial_adapter.ts:9-24 | delimiter, magic, escaped payload, delimiter |
| `SerialHost.DecodePacket` | makestack/src/adapters/serial_adapter.ts:26-43 | refuses exactly what does not begin with the magic; of a packet, gives back the payload |

## Left out

- Decoder suspend and resume, wrapping output buffers, zlib headers and the checksum test at the end: the decoder is modelled on one call with a non-wrapping buffer; running out of input or room ends it with a status.
- Input treated as followed by zeros when no more input is announced: the model has more input announced, so that a truncated stream is reported.
- The decoder's loop that takes two literals at a time, and its copies of eight bytes at a time: they compute what the single steps do, and are modelled as those.
- `tdefl_compress_fast` and the 64-bit code writer: alternative forms chosen by build flags; the portable forms are modelled.
- The build with a code buffer of 24 KB and an output buffer to match.
- Symbol counts kept while recording: they are counted from the replayed codes when the block is written.
- The copying of finished bytes to the caller: which blocks have to wait for it is a parameter of `CompressNormal` and `Compress`, and any choice is allowed.
- MinimumRedundancy.CalculateMinimumRedundancy: keys are natural numbers, and the model proves that every value written fits the 16-bit field.
- QR data encoding, version and format patterns, block interleaving and mask choice.
- Notifications, closing of channels, payloads that need translation, thread destruction and more than one CPU: the protocol is modelled for inline messages on one CPU with interrupts off inside a call.
- Kernel.Machine.ChannelRecv: channels are looked up in one table; the source keeps one per process.
- `list_remove`: only used when threads are destroyed.
- WaitQueue.Waiters.TakeFirst: the source also hands the element it took to `kfree`; releasing memory is not modelled.
- Physical pages, page retry loops and address-space areas in `memory.c`.
- Arena.Pool.Alloc: that a header fits in an object of the arena is not modelled, nor are the debug build's markers.
- Telemata.Deserialize: strings are byte strings and numbers are unbounded.
- Heartbeat.NamelessLost: is about heartbeats without a log; a log could hold anything that the server then takes for messages.
- The ring buffer of the device's log, and which updates the device fetches.
- DeviceReceive.ReceivePayload: lengths are unbounded numbers, where the source has 32-bit integers.
- Splitting the serial line at delimiters: packets are modelled from one delimiter to the next.
- SerialEscape.EscapePayload: leaves out the buffers in which a move would write one byte past the end; `StaysInside` says exactly which these are.
- VirtualPages.VmSpace.Valloc: asks for at least one page; the source writes before the area when asked for none.
- ZIP file reading and writing, PNG writing, CRC-32, and the rest of the repository's projects.
