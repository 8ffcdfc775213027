# Verified models of libbacktrace and of BFD's section list

The bundled libbacktrace turns addresses into file names, lines and symbols. To do that it inflates
compressed debug sections, decodes DWARF, allocates its own memory, and lets several threads build
and read its tables at once. This project models those parts and proves what they promise. It also
models one piece of BFD, the list of a binary's sections.

| part | modules | main results |
|---|---|---|
| Inflating | Bits, Huffman, ReverseCount, TableSlots, ShortCodes, HiddenSymbol, LongCodes, SecondarySpace, InflateTable, FixedTables, DefaultTables, Deflate, Layout, BitReader, InflateMatch, InflateTokens, DynamicHeader, Inflate, InflateLimits, StreamExamples, Adler, Zlib | `Inflate.InflateStream`, `InflateTable.BuildTable`, `Adler.VerifyChecksum` |
| Threads | AppendList, Publication | `AppendList.EveryRun`, `AppendList.WriterCanFinish`, `Publication.SafeIffDeterministic` |
| Memory | Freelist, Mmap, GrowableVector | `Freelist.EveryRunIsSafe`, `Mmap.State.Alloc`, `GrowableVector.Run` |
| DWARF | DwarfBuf, Leb128, LineMachine, LineProgram, LineAssembler, LineTable, Abbrevs | `LineMachine.RefinesIff`, `LineAssembler.ReadAssembled`, `LineTable.FindLine`, `Abbrevs.ReadAbbrevs` |
| Symbols and sections | CoffSymbols, SectionList | `CoffSymbols.FindFunction`, `SectionList.Bfd.RemovedFromList` |

`Deflate` is an independent definition of the compressed format: an encoder for blocks of tokens and the
byte-by-byte meaning of tokens, written from sections 3.1 and 3.2 of RFC 1951. `LineMachine` has the
registers and rows of DWARF 4 beside the variables of the reader. `Freelist` is the allocator on sets of
bytes; `Mmap` is the code, which links free blocks through their own words in memory. `Sorting` is an
insertion sort for the one that the repository only declares; what is said about searching holds for
any table that is sorted and has the same entries.

Threads are interleaved atomic steps. A call into the system is a parameter: what the lock, `mmap` and
`munmap` answer, and where a buffer lies. Results hold for every answer. A `ghost` parameter such as
`bs` or `ops` is the data that the bytes encode; where the bytes encode something else the methods are
still safe and the promises about it do not apply.

## Where the code and its standards differ

* A stored block whose 3-bit header ends exactly on a byte boundary is read one byte too far, because
  backing up stops at 8 bits rather than below 8 (elf.c:1757). Such a block is never copied rightly, and
  every other one is (`Inflate.StoredBlock`); `Inflate.MisreadLength` says which of them pass the check
  of the length, and `InflateLimits.ShiftedIsMisread` is a stream with one.
* A refill always takes four bytes, though near the end fewer would do (elf.c:1082). If the end-of-block
  code of a last, dynamic block and the padding behind it have less than 7 bits together, a well-formed
  stream fails at one address in four (`Inflate.InflateStream`, `Inflate.RefillInsideIff`,
  `InflateLimits.NarrowEndFails`).
* Secondary tables start below entry 512 (elf.c:1425). A literal code with unused code space and over
  264 long codes can need more; codes that use up the code space, and all distance codes, never do
  (`SecondarySpace.CompleteFits`, `SecondarySpace.DistancesFit`, `InflateLimits.CrowdedFails`).
* Section 3.2.7 of RFC 1951 lets a dynamic block announce up to 32 distance codes. More than 30 are
  refused (elf.c:1832), even if the last ones are not used (`Inflate.Refused`,
  `InflateLimits.ManyDistancesFail`).
* An entry of 0 in a decoding table means both "empty" and "symbol 0, length 1". Such a symbol 0 does not
  count when a set of lengths is checked for over-subscription: `InflateTable.BuildTable` says for every
  set whether it is accepted, and `InflateTable.ThreeCodes` is one that should not be
  (`InflateTable.OversubscriptionCaughtIff`).
* `DW_LNE_define_file` should add a name to the table of files; the line reader makes the name the
  current file instead, and does not give it a number (dwarf.c:1806-1856). `LineMachine.RefinesIff` says
  for which programs this makes no difference: those that use no name they define. In
  `LineMachine.DefinedNameRecorded` it makes one.
* Two threads that parse the same unit overwrite each other's fields. That is harmless only because
  they read the same information, as a comment at dwarf.c:2741-2746 presumes;
  `Publication.SafeIffDeterministic` shows that nothing less will do.

## Model

| member | source | states |
|---|---|---|
| `Inflate.InflateStream` | backtrace_libbt/libbacktrace/src/elf.c:1662-2354 | A zlib stream encoded by sections 3.2.3 to 3.2.7 of RFC 1951, of any fixed, dynamic and stored blocks (no stored header on a byte boundary), is inflated if and only if the expansion of its tokens fills the buffer, no block has over 30 distance codes or needs too many secondary tables, and the last refill finds its word in the stream; the output is then that expansion, and no other stream header than those of `HeaderBytesIff` is ever taken |
| `Inflate.HeaderBytesIff` | backtrace_libbt/libbacktrace/src/elf.c:1681-1705 | The two header bytes that pass are exactly those of section 2.2 of RFC 1950 with method 8, a window of at most 32768 bytes, any level, no preset dictionary, and check bits that make the number a multiple of 31 |
| `Inflate.CheckHeader` | backtrace_libbt/libbacktrace/src/elf.c:1681-1705 | The checks in the code let exactly these headers pass |
| `StreamExamples.EmptyStream` | backtrace_libbt/libbacktrace/src/elf.c:1662-2354 | The bytes 78 9c 03 00 00 00 00 01 are the stream of an empty fixed block and its checksum, and meet every condition at every address |
| `StreamExamples.LiteralStream` | backtrace_libbt/libbacktrace/src/elf.c:2155-2195 | 78 9c 4b 04 00 00 62 00 62 is a fixed block that expands to the byte 0x61, and its checksum |
| `StreamExamples.StoredStream` | backtrace_libbt/libbacktrace/src/elf.c:1750-1800 | 78 9c 01 01 00 fe ff 61 00 62 00 62 is a stored block of the byte 0x61, and its checksum |
| `StreamExamples.RepeatedStream` | backtrace_libbt/libbacktrace/src/elf.c:1808-2350 | 22 bytes are a stream of one dynamic block that sends all 19 lengths of the code length code in their order, all three kinds of repetition, literals and matches at two distances; its expansion, its checksum, and the one address in four at which it fails |
| `StreamExamples.LettersAToH` | backtrace_libbt/libbacktrace/src/elf.c:1250-1314 | The example of section 3.2.2 of RFC 1951: the codes for the lengths 3, 3, 3, 3, 3, 2, 4, 4, bit by bit |
| `Inflate.RefillInsideIff` | backtrace_libbt/libbacktrace/src/elf.c:1074-1114 | The words needed for the last end-of-block code end inside the stream unless the last block is dynamic, that code and the padding have less than 7 bits together, and the end of the stream is 3 bytes past a 32-bit boundary |
| `InflateLimits.NarrowEndFails` | backtrace_libbt/libbacktrace/src/elf.c:1082-1086 | A well-formed stream of one zero byte that is inflated at three addresses out of four |
| `InflateLimits.CrowdedFails` | backtrace_libbt/libbacktrace/src/elf.c:1424-1430 | A well-formed dynamic block whose literal code needs too many secondary tables |
| `InflateLimits.ShiftedIsMisread` | backtrace_libbt/libbacktrace/src/elf.c:1756-1782 | A well-formed stream whose stored block, whatever data it has, is refused or read with another length |
| `Inflate.RefusedOnly` | backtrace_libbt/libbacktrace/src/elf.c:1424-1430 | A well-formed dynamic block that is refused has more than 30 distance codes, or its literal code leaves code space unused and has over 264 codes of more than 8 bits |
| `InflateLimits.ManyDistancesFail` | backtrace_libbt/libbacktrace/src/elf.c:1832-1837 | A well-formed stream of one zero byte whose header announces 31 or 32 distance codes, only one of them used, and which is refused for nothing else |
| `Inflate.AllBlocks` | backtrace_libbt/libbacktrace/src/elf.c:1721-2350 | The block loop over any sequence of blocks appends their expansion and stops where they end, at the block marked last; it fails only for lack of input at or before the last end-of-block code, of room, or because a block is refused |
| `Inflate.CompressedBlock` | backtrace_libbt/libbacktrace/src/elf.c:1802-2147 | A fixed or dynamic block appends the expansion of its tokens, or runs short of input no later than at its end-of-block code, or does not fit, or has too many distance codes or secondary tables |
| `Inflate.ReadTables` | backtrace_libbt/libbacktrace/src/elf.c:1808-2147 | The tables built from a dynamic header decode the two prefix codes that its run-length items stand for, and reading ends where the header ends; otherwise the input ended inside the header, or there are over 30 distance codes, or one of the codes needs too many secondary tables |
| `Inflate.InflateBlock` | backtrace_libbt/libbacktrace/src/elf.c:2152-2350 | The symbol loop turns an encoded token list into its byte-by-byte expansion, or stops for lack of input or of room |
| `Inflate.StoredBlock` | backtrace_libbt/libbacktrace/src/elf.c:1750-1800 | A stored block that fits, empty or not, is copied exactly if and only if its header does not end on a byte boundary; reading then goes on at its end; a block on a boundary is accepted only if the byte behind the complement is the low byte of its length |
| `Inflate.MisreadLength` | backtrace_libbt/libbacktrace/src/elf.c:1757-1782 | For every stored block whose header ends on a byte boundary, the check of length against complement is made one byte too far, passes if and only if the byte behind the complement is the low byte of the length, and then the length used is another one |
| `BitReader.StoredLengthPlace` | backtrace_libbt/libbacktrace/src/elf.c:1757-1761 | Backing up finds the length where section 3.2.4 of RFC 1951 puts it if and only if the header does not end on a byte boundary |
| `BitReader.Reader.Take` | backtrace_libbt/libbacktrace/src/elf.c:1737-1740 | Taking bits needs no more than are buffered, gives the next bits of the stream, and leaves the rest |
| `BitReader.Reader.NextByte` | backtrace_libbt/libbacktrace/src/elf.c:1715-1721 | A byte is added only while at most 46 bits are then buffered, and does not move the position |
| `BitReader.Reader.Fetch` | backtrace_libbt/libbacktrace/src/elf.c:1068-1114 | Refilling does not move the reading position and leaves 15 bits, and is refused only when fewer than 4 bytes are left |
| `BitReader.Reader.BackUp` | backtrace_libbt/libbacktrace/src/elf.c:1756-1763 | Whole bytes are given back, with the bits in the buffer still being the unread ones |
| `BitReader.Reader.Align` | backtrace_libbt/libbacktrace/src/elf.c:1711-1721 | Reading bytes up to a 32-bit boundary does not move the position |
| `BitReader.Reader.Symbol` | backtrace_libbt/libbacktrace/src/elf.c:2162-2179 | One lookup in the two-level table gives the symbol that the table stands for and takes exactly its bits |
| `InflateMatch.LengthFormula` | backtrace_libbt/libbacktrace/src/elf.c:2208-2235 | The shift expressions give, for every length symbol with extra bits, the base length and the number of extra bits of the table in section 3.2.5 of RFC 1951 |
| `InflateMatch.DistanceFormula` | backtrace_libbt/libbacktrace/src/elf.c:2287-2306 | The shift expressions give, for every distance symbol with extra bits, the base distance and the number of extra bits of the table in section 3.2.5 of RFC 1951 |
| `InflateMatch.CopyUnique` | backtrace_libbt/libbacktrace/src/elf.c:2308-2342 | Any output in which every byte equals the one `dist` places before it is the byte-by-byte copy |
| `InflateMatch.CopyBack` | backtrace_libbt/libbacktrace/src/elf.c:2323-2342 | Copying in pieces of at most `dist` bytes gives the byte-by-byte copy, overlapping or not |
| `InflateMatch.RepeatLast` | backtrace_libbt/libbacktrace/src/elf.c:2260-2279 | Filling with the last byte is the byte-by-byte copy at distance 1 |
| `InflateTokens.DecodeMatch` | backtrace_libbt/libbacktrace/src/elf.c:2200-2306 | The length and distance of an encoded match are those of its symbols and extra bits |
| `InflateTokens.Step` | backtrace_libbt/libbacktrace/src/elf.c:2155-2350 | One turn of the symbol loop consumes one token and applies it, or ends at symbol 256 |
| `DynamicHeader.ReadOrder` | backtrace_libbt/libbacktrace/src/elf.c:1836-1971 | The unrolled reading of the code length lengths, with a refill before every fifth one and an exit at each count, puts each at the symbol that section 3.2.7 of RFC 1951 gives its place to |
| `DynamicHeader.ReadLengths` | backtrace_libbt/libbacktrace/src/elf.c:1985-2136 | The run-length coded lengths expand to exactly the announced number of lengths |
| `Layout.BlocksEncoded` | backtrace_libbt/libbacktrace/src/elf.c:1721-2350 | The bit string of a block sequence has every header, symbol and extra field where the position relations of the reader say it is, and the padding of stored blocks where it was put |
| `Layout.BlocksThere` | backtrace_libbt/libbacktrace/src/elf.c:1721-2350 | The converse: where every field stands as the position relations say, the input is the encoding of the blocks and they are well formed |
| `Layout.MatchExists` | backtrace_libbt/libbacktrace/src/elf.c:2200-2306 | Every length from 3 to 258 and distance from 1 to 32768 has a token, so no match is left out of the encoding |
| `Layout.ItemExists` | backtrace_libbt/libbacktrace/src/elf.c:1985-2136 | Every code length symbol with every value of its extra bits has an item |
| `StreamExamples.HeadersOccur` | backtrace_libbt/libbacktrace/src/elf.c:1822-1837 | Every value of the three counts of a dynamic header that section 3.2.7 of RFC 1951 allows occurs in a well-formed one |
| `InflateTable.BuildTable` | backtrace_libbt/libbacktrace/src/elf.c:1190-1498 | Any lengths at all are accepted if and only if they are below 16, their Kraft sum, without a symbol 0 of length 1, is at most 1, at most two of them are 1, and every secondary table that is opened starts below entry 512; on success a prefix code is decoded by the two-level lookup for every lookahead; lengths up to 8 are accepted if and only if no code falls on a taken entry |
| `InflateTable.TableDecodes` | backtrace_libbt/libbacktrace/src/elf.c:1190-1498 | Of the two-level table: every lookahead that starts with a symbol's canonical code finds that symbol and its length, also a short code inside a larger secondary table |
| `InflateTable.OversubscriptionCaught` | backtrace_libbt/libbacktrace/src/elf.c:1250-1475 | If some table holds all codes without a collision of non-zero entries, the Kraft sum without a symbol 0 of length 1 is at most 1 |
| `InflateTable.OversubscriptionCaughtIff` | backtrace_libbt/libbacktrace/src/elf.c:1250-1475 | Every set of lengths that the builder accepts and whose first length is `first` has Kraft sum at most 1 if and only if `first` is not 1 |
| `InflateTable.ThreeCodes` | backtrace_libbt/libbacktrace/src/elf.c:1276-1292 | The lengths 1, 1, 2 are over-subscribed, and the builder accepts them |
| `InflateTable.ThreeOneBitCodes` | backtrace_libbt/libbacktrace/src/elf.c:1248-1252 | The lengths 1, 1, 1 collide nowhere, and are refused for their number |
| `HiddenSymbol.VisibleFits` | backtrace_libbt/libbacktrace/src/elf.c:1250-1292 | A Kraft sum of at most 1 without a symbol 0 of length 1 keeps the short codes inside the primary table, except for three 1-bit codes |
| `HiddenSymbol.VisibleBoundsEnd` | backtrace_libbt/libbacktrace/src/elf.c:1250-1378 | It keeps the codes of every length within one round of the code space behind symbol 0 |
| `InflateTable.FillLong` | backtrace_libbt/libbacktrace/src/elf.c:1382-1490 | The secondary tables hold exactly the long codes and none overlaps another; if the codes that mark entries do not overlap, this succeeds if and only if every table that is opened starts below entry 512 |
| `LongCodes.OpenSecondary` | backtrace_libbt/libbacktrace/src/elf.c:1414-1452 | If the codes that mark entries do not overlap, a table is opened exactly if no code entered before has the same first 8 bits, at the end of the space used so far |
| `SecondarySpace.OpensIff` | backtrace_libbt/libbacktrace/src/elf.c:1414-1452 | A code opens a table if and only if it is the first of its length with its first 8 bits and no longer code has them |
| `SecondarySpace.UsedInLength` | backtrace_libbt/libbacktrace/src/elf.c:1432-1438 | The space in use before any code is that of the longer codes and one table for each group of codes of its length that shares no table with them |
| `SecondarySpace.CompleteFits` | backtrace_libbt/libbacktrace/src/elf.c:1424-1430 | A code of at most 316 symbols that uses up the code space is never refused |
| `SecondarySpace.FewLongFit` | backtrace_libbt/libbacktrace/src/elf.c:1424-1430 | Nor is any prefix code with at most 264 codes of more than 8 bits |
| `SecondarySpace.DistancesFit` | backtrace_libbt/libbacktrace/src/elf.c:1424-1430 | Nor is any code of at most 32 distances |
| `SecondarySpace.CrowdedIsRefused` | backtrace_libbt/libbacktrace/src/elf.c:1424-1430 | A prefix code of 285 symbols whose table would have to start too late |
| `ShortCodes.FillShort` | backtrace_libbt/libbacktrace/src/elf.c:1250-1350 | The primary table holds exactly the short codes in bit-reversed order; success if and only if none falls on a taken entry |
| `LongCodes.PrefixFree` | backtrace_libbt/libbacktrace/src/elf.c:1270-1292 | No canonical code of a Kraft set is the beginning of another |
| `LongCodes.VisiblePrefixFree` | backtrace_libbt/libbacktrace/src/elf.c:1316-1328 | Nor, when codes wrap around to the part of symbol 0, any code that marks entries of another such code |
| `LongCodes.NoCollision` | backtrace_libbt/libbacktrace/src/elf.c:1440-1472 | No secondary entry that is to be written is taken, unless the codes that mark entries have a Kraft sum above 1 |
| `TableSlots.ChainLengths` | backtrace_libbt/libbacktrace/src/elf.c:1204-1234 | Counting and chaining in one pass gives, for each length, its symbols in rising order |
| `TableSlots.FillSlots` | backtrace_libbt/libbacktrace/src/elf.c:1283-1292 | Stepping by a power of two writes exactly the entries that end in the reversed code, or finds one taken |
| `Huffman.EndIsKraftSum` | backtrace_libbt/libbacktrace/src/elf.c:1250-1378 | The first unused code of each length, found by counting, is the Kraft sum scaled to that length |
| `Huffman.KraftBoundsEnd` | backtrace_libbt/libbacktrace/src/elf.c:1250-1378 | A Kraft sum of at most 1 keeps the codes of every length inside that length |
| `ReverseCount.ReverseIncrement` | backtrace_libbt/libbacktrace/src/elf.c:1316-1328 | The bit trick is the reversal of adding 1 modulo 2^j |
| `ReverseCount.ReverseAdd` | backtrace_libbt/libbacktrace/src/elf.c:1353-1373 | The loop over the bits of a count is the reversal of adding the count, that is, as many increments |
| `ReverseCount.IncrementIsReversed` | backtrace_libbt/libbacktrace/src/elf.c:1316-1328 | The effect of the bit trick on any value, by its highest clear bit, is that of the reversed count |
| `ReverseCount.ReverseAddBit` | backtrace_libbt/libbacktrace/src/elf.c:1353-1373 | Adding 2^k in reversed order is one increment of the part of the code above the low k bits |
| `Bits.RevInvolution` | backtrace_libbt/libbacktrace/src/elf.c:1294-1318 | Reversing the bits of a code twice gives the code back |
| `Bits.RevLow` | backtrace_libbt/libbacktrace/src/elf.c:1259-1292 | The low bits of a reversed code are the reversal of its high bits |
| `InflateTable.NextLength` | backtrace_libbt/libbacktrace/src/elf.c:1309-1314 | Going from any length to the next leaves the value of the reversed code as it is |
| `ShortCodes.ShareHalves` | backtrace_libbt/libbacktrace/src/elf.c:1309-1314 | So does it for the short lengths, and the code space in use stays the same |
| `FixedTables.Generate` | backtrace_libbt/libbacktrace/src/elf.c:1509-1566 | The builder never fails on the fixed lengths, and its tables decode the fixed codes of section 3.2.6 of RFC 1951 |
| `FixedTables.FixedLitIsCode` | backtrace_libbt/libbacktrace/src/elf.c:1509-1566 | The fixed literal lengths are a prefix code and use up the code space |
| `FixedTables.FixedCodes` | backtrace_libbt/libbacktrace/src/elf.c:1509-1566 | The canonical codes of the fixed lengths are the ranges that section 3.2.6 of RFC 1951 prints: 00110000 on, 110010000 on, 0000000 on and 11000000 on, and five bits for each distance |
| `DefaultTables.DefaultTablesDecode` | backtrace_libbt/libbacktrace/src/elf.c:1573-1658 | The 624 numbers of the two tables that the source holds, entry by entry, decode the fixed codes for every lookahead |
| `DefaultTables.RightDecodes` | backtrace_libbt/libbacktrace/src/elf.c:2162-2179 | Of any prefix code of at most nine bits: if each of the 256 primary entries leads to symbols whose codes start its index, every lookahead finds its symbol |
| `DefaultTables.NewWork` | backtrace_libbt/libbacktrace/src/elf.c:1802-1806 | A work area for the inflate code whose fixed tables are those of the source |
| `Adler.VerifyChecksum` | backtrace_libbt/libbacktrace/src/elf.c:2360-2481 | True if and only if the four bytes are s2 / 256, s2 % 256, s1 / 256, s1 % 256, where s1 is 1 plus the sum of the bytes and s2 is n plus the sum of (n - i) * data[i], both modulo 65521; this is the checksum of sections 2.2 and 8.2 of RFC 1950, reduced after every byte; no 32-bit sum wraps |
| `Adler.ClosedSums` | backtrace_libbt/libbacktrace/src/elf.c:2380-2481 | The sums that are reduced after every byte are the closed sums reduced once |
| `Adler.TrailerIff` | backtrace_libbt/libbacktrace/src/elf.c:2372-2374 | Four bytes, read most significant first, are the checksum if and only if they are the four digits of the closed sums |
| `Adler.BlockFits` | backtrace_libbt/libbacktrace/src/elf.c:2382-2390 | 5552 bytes after a reduction the second sum still fits in 32 bits |
| `Zlib.InflateAndVerify` | backtrace_libbt/libbacktrace/src/elf.c:2487-2498 | Success means that the last four bytes are the digits of the closed sums of the output; an encoded stream is accepted if and only if it is inflated and its last four bytes are those of its expansion, and the output is then the expansion |
| `AppendList.EveryRun` | backtrace_libbt/libbacktrace/src/dwarf.c:3003-3036 | After any interleaving of any number of threads memory spells an acyclic list with each finished thread's node in it exactly once and no other, and no thread has failed to swap more often than nodes were appended |
| `AppendList.AppendOnly` | backtrace_libbt/libbacktrace/src/elf.c:672-710 | Across any run the list that memory spells only grows at its end, with any number of appending and walking threads |
| `AppendList.ReaderSeesEarlierNodes` | backtrace_libbt/libbacktrace/src/dwarf.c:2885-2903 | A reader that runs to NULL has visited, in order, every node appended before it started, whatever happens meanwhile |
| `AppendList.StepKeeps` | backtrace_libbt/libbacktrace/src/pecoff.c:473-511 | Every atomic step of every thread keeps: the chain is the list, the writers are on it, the readers have seen a prefix of it |
| `AppendList.WriterCanFinish` | backtrace_libbt/libbacktrace/src/dwarf.c:3010-3035 | In every reachable state, a thread anywhere in the append loop that is then left alone appends its node behind all others within three steps more than there are nodes, whatever the other threads have stopped at |
| `AppendList.NewWriterAppends` | backtrace_libbt/libbacktrace/src/dwarf.c:3003-3036 | A thread that enters the append in any reachable state and is left alone loads each element once, swaps once, and memory then spells the old list and its node |
| `AppendList.NewReaderSees` | backtrace_libbt/libbacktrace/src/dwarf.c:2885-2903 | A reader that starts in any reachable state and is left alone reaches NULL having visited exactly the list, which it leaves as it is |
| `Publication.SafeIffDeterministic` | backtrace_libbt/libbacktrace/src/dwarf.c:2686-2763 | For any number of racing threads, every thread that reads a table reads a count and a function array of complete parses, in every schedule, if and only if parsing is deterministic |
| `Publication.DeterministicIsSafe` | backtrace_libbt/libbacktrace/src/dwarf.c:2718-2763 | With deterministic parsing, storing `lines` last makes every view complete |
| `Publication.FirstThread` | backtrace_libbt/libbacktrace/src/dwarf.c:2707-2763 | In any state in which `lines` is NULL, a thread that runs alone publishes all four fields of its own parse, or the mark of failure |
| `Publication.LateThread` | backtrace_libbt/libbacktrace/src/dwarf.c:2704-2790 | A thread that starts when there is a table reads the four fields, writes none, and reads no array when its count is 0 |
| `Publication.LateFailure` | backtrace_libbt/libbacktrace/src/dwarf.c:2704-2790 | A thread that starts when reading has failed gives up and changes nothing |
| `Publication.CountOverwritten` | backtrace_libbt/libbacktrace/src/dwarf.c:2740-2763 | Two parses with different counts have a schedule in which one thread searches its table with the count of the other |
| `Publication.FunctionsOverwritten` | backtrace_libbt/libbacktrace/src/dwarf.c:2740-2763 | Two parses with different function counts have a schedule in which the array of one is read with the count of the other |
| `Freelist.EveryRunIsSafe` | backtrace_libbt/libbacktrace/src/mmap.c:69-234 | For any sequence of calls that free only aligned parts of live memory: free blocks stay pairwise disjoint, at least a header long and at most 16; every byte ever mapped is in exactly one of live, free, leaked and unmapped; and none is forgotten |
| `Freelist.OnePlace` | backtrace_libbt/libbacktrace/src/mmap.c:69-234 | What is kept, byte by byte: every byte ever mapped is in exactly one of the live, leaked and unmapped bytes and the blocks of the list, in one block at most; blocks have at least 16 bytes at multiples of 8, at most 16 of them |
| `Freelist.AllocatedSafe` | backtrace_libbt/libbacktrace/src/mmap.c:109-185 | An allocation hands out an aligned block of at least the requested bytes, none of which was live or leaked, or changes nothing |
| `Freelist.AllocatedIff` | backtrace_libbt/libbacktrace/src/mmap.c:109-185 | A request is met if and only if the lock is held and some listed block is large enough, or the system grants the pages; it gets the first large enough block, and then maps nothing, or else the granted pages, and then maps just those |
| `Freelist.GrantsIff` | backtrace_libbt/libbacktrace/src/mmap.c:167-172 | Pages may be granted exactly at addresses that are multiples of the page size, not NULL, and free of bytes that are mapped or hold the allocator's state |
| `Freelist.FirstRequest` | backtrace_libbt/libbacktrace/src/mmap.c:167-181 | The first request of a program, for 100 bytes: a page is mapped, 104 of its bytes are handed out and the other 3992 are listed |
| `Freelist.SplitKeepsRest` | backtrace_libbt/libbacktrace/src/mmap.c:138-157 | What is left of a split block goes to the front of the list, and is never lost, if a header fits in it |
| `Freelist.SmallRestIsLost` | backtrace_libbt/libbacktrace/src/mmap.c:69-74 | A rest that no header fits in is leaked, and nothing else is |
| `Freelist.FreeThenAlloc` | backtrace_libbt/libbacktrace/src/mmap.c:109-234 | Freeing a block that is listed without dropping another and asking for as much gives back that block, and the memory is as it was before |
| `Freelist.KeepsSixteenLargest` | backtrace_libbt/libbacktrace/src/mmap.c:78-103 | Freeing into a full list keeps the 16 largest of the 17 blocks, as multisets |
| `Freelist.FreedLockedSafe` | backtrace_libbt/libbacktrace/src/mmap.c:69-104 | Inserting moves exactly the freed bytes out of the live ones and loses track of none |
| `Freelist.WhereFreed` | backtrace_libbt/libbacktrace/src/mmap.c:190-234 | When the bytes of a freed block go back to the system (64 KiB or more, whole pages), when they become the first of the list, which otherwise stays, and that they are leaked exactly in the remaining cases |
| `Freelist.LiveUntilFreed` | backtrace_libbt/libbacktrace/src/mmap.c:69-234 | Memory stays live across any run until a call frees part of it |
| `Mmap.Unlinked` | backtrace_libbt/libbacktrace/src/mmap.c:96-98 | Overwriting the pointer to a block with the block's own `next` word takes exactly that block out of the linked list |
| `Mmap.Pushed` | backtrace_libbt/libbacktrace/src/mmap.c:100-103 | Writing a header and the head word puts a block in front of the linked list |
| `Mmap.State.FreeLocked` | backtrace_libbt/libbacktrace/src/mmap.c:69-104 | The pointer-chasing insert leaves the words in memory spelling the list of the specification, and no live word changes |
| `Mmap.State.FindSmallest` | backtrace_libbt/libbacktrace/src/mmap.c:88-95 | The walk through the pointers finds the pointer to the first of the smallest blocks, and the length of the list |
| `Mmap.State.Alloc` | backtrace_libbt/libbacktrace/src/mmap.c:109-185 | The answer is not NULL if and only if the lock is held and some listed block has at least the requested size, or the pages are granted; it is the first such block, with no page mapped, or else the granted address; what is left is treated as the specification says for every answer of the lock and the system, and no live word changes |
| `Mmap.State.Free` | backtrace_libbt/libbacktrace/src/mmap.c:190-234 | Freeing unmaps, links or leaks the block as the specification says, and no word of other live memory changes |
| `Mmap.RunCalls` | backtrace_libbt/libbacktrace/src/mmap.c:69-234 | Any sequence of calls made on the words in memory ends in the memory of `Freelist.Run`, to which the results about runs apply |
| `GrowableVector.NewSizeIsEnough` | backtrace_libbt/libbacktrace/src/mmap.c:247-262 | Every new size has room for what is there and for the request |
| `GrowableVector.NewSizeIs` | backtrace_libbt/libbacktrace/src/mmap.c:247-262 | The size of the first block, and of later ones below, around and above a page, in numbers |
| `GrowableVector.Vector.Move` | backtrace_libbt/libbacktrace/src/mmap.c:247-277 | Moving to a larger block keeps the elements and the words of all other live memory, and leaves room for the request |
| `GrowableVector.Vector.Grow` | backtrace_libbt/libbacktrace/src/mmap.c:238-283 | Growing succeeds if and only if the request fits in what is left or the allocator has a block of the new size; it keeps all earlier elements, returns room for the request behind them, leaves the rest of the new size for later, and touches nothing else that is live; on failure all stays as it was |
| `GrowableVector.Vector.Finish` | backtrace_libbt/libbacktrace/src/mmap.c:287-299 | The finished part keeps its place and its words, and the vector goes on behind it |
| `GrowableVector.Vector.Release` | backtrace_libbt/libbacktrace/src/mmap.c:304-325 | Releasing frees exactly the unused bytes and keeps the elements |
| `GrowableVector.Run` | backtrace_libbt/libbacktrace/src/mmap.c:238-325 | Whatever sequence of growing, storing, finishing and releasing follows, every finished part stays live with its words |
| `SectionList.Bfd.RemovedFromList` | addr2line_gnu/bfd.h:1815-1816 | False exactly for the current members, for every section that has ever been in the list or is new |
| `SectionList.Bfd.Run` | addr2line_gnu/bfd.h:1731-1816 | Any run of well-placed operations leaves forward and backward links that spell the list computed on sequences |
| `SectionList.Bfd.ForwardWalk` | addr2line_gnu/bfd.h:1731-1814 | The only path along `next` from the first section to NULL is the list |
| `SectionList.Bfd.BackwardWalk` | addr2line_gnu/bfd.h:1731-1814 | The only path along `prev` from the last section to NULL is the list backward |
| `SectionList.StillStale` | addr2line_gnu/bfd.h:1731-1816 | Since backward links are only ever set to members, no removed section becomes the one its old neighbour points back to |
| `SectionList.Inserted` | addr2line_gnu/bfd.h:1747-1814 | Changing only the links to and from a new section at one place makes all links spell the longer list |
| `SectionList.Removed` | addr2line_gnu/bfd.h:1731-1746 | Changing only the two links around a section makes all links spell the shorter list |
| `SectionList.Bfd.Append` | addr2line_gnu/bfd.h:1747-1765 | The list gets the section at its end and all links spell it |
| `SectionList.Bfd.Prepend` | addr2line_gnu/bfd.h:1766-1784 | The list gets the section in front and all links spell it |
| `SectionList.Bfd.InsertAfter` | addr2line_gnu/bfd.h:1785-1799 | The list gets the section behind a member and all links spell it |
| `SectionList.Bfd.InsertBefore` | addr2line_gnu/bfd.h:1800-1814 | The list gets the section before a member and all links spell it |
| `SectionList.Bfd.Remove` | addr2line_gnu/bfd.h:1731-1746 | The list loses the section, whose own links stay, and all links spell it |
| `DwarfBuf.Buf.Advance` | backtrace_libbt/libbacktrace/src/dwarf.c:385-412 | The reader moves only if enough is left, and reports running out once |
| `DwarfBuf.Buf.ReadUint` | backtrace_libbt/libbacktrace/src/dwarf.c:440-489 | The bytes are put together in the order of the section, or nothing is read |
| `DwarfBuf.ByteOfNumber` | backtrace_libbt/libbacktrace/src/dwarf.c:440-489 | Byte i of the number, from the least significant one, is byte i of the section or of its reverse |
| `DwarfBuf.FromToBytes` | backtrace_libbt/libbacktrace/src/dwarf.c:440-489 | A number written by division into as many bytes as it needs is read back in either order; `TwoByteNumber` is 0x1234 |
| `DwarfBuf.Buf.ReadAddress` | backtrace_libbt/libbacktrace/src/dwarf.c:506-523 | Addresses of 1, 2, 4 and 8 bytes are read, others give 0 |
| `Leb128.ReadUleb` | backtrace_libbt/libbacktrace/src/dwarf.c:548-580 | For any bytes: the number, however long or padded, modulo 2^64, with a report exactly beyond ten bytes; 0 and an underflow if it does not end |
| `Leb128.ReadSleb` | backtrace_libbt/libbacktrace/src/dwarf.c:583-617 | For any bytes: the signed number reduced to 64 bits, sign extension included |
| `Leb128.EncodedUleb` | backtrace_libbt/libbacktrace/src/dwarf.c:548-580 | The encoding of section 7.6 of DWARF 4 ends at its last byte, stands for the number, and has at most as many bytes as the number has groups |
| `Leb128.EncodedSleb` | backtrace_libbt/libbacktrace/src/dwarf.c:583-617 | The same for every signed number |
| `Leb128.FigureExamples` | backtrace_libbt/libbacktrace/src/dwarf.c:548-617 | The numbers and bytes that section 7.6 of DWARF 4 gives as examples |
| `Leb128.ReadEncodedUleb` | backtrace_libbt/libbacktrace/src/dwarf.c:548-580 | Round trip: every 64-bit number followed by anything is read back, takes exactly its encoding and reports nothing |
| `Leb128.ReadEncodedSleb` | backtrace_libbt/libbacktrace/src/dwarf.c:583-617 | Round trip for every signed 64-bit number |
| `Leb128.SignedOfGroups` | backtrace_libbt/libbacktrace/src/dwarf.c:611-612 | The signed value is the unsigned one less the power of two behind the last group, if the sign bit is set |
| `LineMachine.RefinesIff` | backtrace_libbt/libbacktrace/src/dwarf.c:1748-1950 | For every well-formed program the recorded lines are the rows of the state machine of sections 6.2.2 and 6.2.5 of DWARF 4, without ends of sequences and repeated rows, if and only if the program uses no file name that it defines |
| `LineMachine.StandardOpcodes` | backtrace_libbt/libbacktrace/src/dwarf.c:1866-1946 | The first byte of each standard instruction is the number of section 7.21 of DWARF 4; `ExtendedOpcodes` has the extended ones |
| `LineMachine.DefinedNameRecorded` | backtrace_libbt/libbacktrace/src/dwarf.c:1806-1856 | A program that defines a name and appends a row: the row is in the header's file, the recorded line in the defined one |
| `LineMachine.RunAgrees` | backtrace_libbt/libbacktrace/src/dwarf.c:1748-1950 | The reader's machine and the state machine agree after every instruction, and record the same |
| `LineMachine.UsedIsRecorded` | backtrace_libbt/libbacktrace/src/dwarf.c:1806-1856 | A program that uses a name it defines is refused, or records a line with such a name |
| `LineMachine.MatrixOfHeaderFiles` | backtrace_libbt/libbacktrace/src/dwarf.c:1888-1907 | The state machine of DWARF gives only names of the header to programs whose file numbers are the header's |
| `LineProgram.ReadLineProgram` | backtrace_libbt/libbacktrace/src/dwarf.c:1748-1950 | On any bytes: if they encode a program, the outcome is that of the reader's machine, errors included; with good numbers, the rows of DWARF if and only if no defined name is used; what the instructions do is pinned by `LineAssembler.ReadAssembled` |
| `LineAssembler.ReadAssembled` | backtrace_libbt/libbacktrace/src/dwarf.c:1748-1950 | Round trip: any rows, in any number of sequences at rising addresses, are written as bytes (`set_address`, `set_file`, and per row `advance_line` with `advance_pc` or `fixed_advance_pc` and `copy`, or a special opcode by the formula of section 6.2.5.1 of DWARF 4, alone or behind `const_add_pc`) and recorded as exactly those rows, repeated ones once |
| `LineAssembler.SpecialTable` | backtrace_libbt/libbacktrace/src/dwarf.c:1771-1795 | Opcodes from the table in section 6.2.5.1 of DWARF 4 |
| `LineProgram.OneOp` | backtrace_libbt/libbacktrace/src/dwarf.c:1771-1946 | One instruction of any kind is decoded from its encoding, does its step and leaves the rest |
| `LineProgram.DefineFileOp` | backtrace_libbt/libbacktrace/src/dwarf.c:1806-1856 | The name, directory and two numbers of `define_file` are taken off, and an unknown directory of a relative name is an error |
| `LineProgram.SkipNumbers` | backtrace_libbt/libbacktrace/src/dwarf.c:1937-1944 | An instruction that the reader does not know is skipped by the number of operands in the header |
| `LineProgram.CutLine` | backtrace_libbt/libbacktrace/src/dwarf.c:1885-1887 | Cutting the advance to 32 bits before adding gives the same line as cutting the sum |
| `LineTable.FindLine` | backtrace_libbt/libbacktrace/src/dwarf.c:969-989 | Binary search in the sorted table with its sentinel gives, for every address below the highest, what a scan over the recorded lines gives: the greatest address not above it, the last recorded of equals, NULL exactly before all lines |
| `LineTable.ScanCovers` | backtrace_libbt/libbacktrace/src/dwarf.c:969-989 | The scan finds the line that covers the address, by a definition that mentions no order of looking |
| `LineTable.TableRises` | backtrace_libbt/libbacktrace/src/dwarf.c:2014-2029 | The sorted lines and the sentinel never fall in address, and equal addresses keep the order of recording |
| `LineTable.ReadLineInfo` | backtrace_libbt/libbacktrace/src/dwarf.c:1992-2034 | From the bytes of a readable program to the table: the sorted rows of DWARF and the sentinel, or failure if there are no rows |
| `LineTable.RunSound` | backtrace_libbt/libbacktrace/src/dwarf.c:1530-1564 | Every recorded line has a 64-bit address and its own place as index |
| `Sorting.SortIsSorted` | backtrace_libbt/libbacktrace/src/internal.h:199-204 | The sort that stands for `backtrace_qsort` gives a sorted permutation for any order |
| `Abbrevs.ReadAbbrevs` | backtrace_libbt/libbacktrace/src/dwarf.c:1016-1150 | The table is the sorted one-pass reading of the same bytes, or failure exactly when something is missing |
| `Abbrevs.AbbrevsRoundTrip` | backtrace_libbt/libbacktrace/src/dwarf.c:1016-1150 | Reading the encoding (section 7.5.3 of DWARF 4) of any list of declarations, with anything behind it, gives back the list and stops behind it |
| `Abbrevs.CompileUnit` | backtrace_libbt/libbacktrace/src/dwarf.c:1016-1150 | The bytes 01 11 01 25 0e 00 00 00 declare a compilation unit with children and one attribute |
| `Abbrevs.CountAbbrevs` | backtrace_libbt/libbacktrace/src/dwarf.c:1045-1065 | The counting pass finds as many declarations as the one-pass reading, and is short exactly when that is |
| `Abbrevs.FillAttrs` | backtrace_libbt/libbacktrace/src/dwarf.c:1098-1136 | The attributes fill exactly the array that was counted for them, and are those of the one-pass reading |
| `Abbrevs.FillAbbrevs` | backtrace_libbt/libbacktrace/src/dwarf.c:1079-1140 | The fill pass writes exactly as many declarations as were counted, those of the one-pass reading, and cannot run short |
| `Abbrevs.LookupAbbrev` | backtrace_libbt/libbacktrace/src/dwarf.c:1152-1178 | In any table sorted by code, the obvious place or binary search gives a declaration with the code if there is one; with distinct codes, what a scan in the order of the section gives |
| `Abbrevs.SortedIsTable` | backtrace_libbt/libbacktrace/src/dwarf.c:1142-1143 | The table that is read is such a table of the declarations |
| `Abbrevs.NoCodeZero` | backtrace_libbt/libbacktrace/src/dwarf.c:1090-1093 | No declaration has the code 0, so looking up 0 finds nothing |
| `CoffSymbols.Count` | backtrace_libbt/libbacktrace/src/pecoff.c:363-384 | The first pass fails exactly if an entry that it comes to is bad, and counts the functions and the bytes of their short names |
| `CoffSymbols.ExpandSymbol` | backtrace_libbt/libbacktrace/src/pecoff.c:301-321 | An entry is bad exactly if its section number is positive and above the number of sections, or its long name is not in the strings |
| `CoffSymbols.ExpandsIff` | backtrace_libbt/libbacktrace/src/pecoff.c:301-321 | The same in terms of the bytes of the entry |
| `CoffSymbols.IsFunctionSymbol` | backtrace_libbt/libbacktrace/src/pecoff.c:327-331 | A function symbol has a kind from 0x20 to 0x2f and a positive section number |
| `CoffSymbols.VisitedFirst` | backtrace_libbt/libbacktrace/src/pecoff.c:363-384 | The walk comes to an entry, skips its auxiliary entries, and goes on behind them |
| `CoffSymbols.Fill` | backtrace_libbt/libbacktrace/src/pecoff.c:409-459 | The second pass selects the same entries and uses exactly the counted symbols and bytes; each name is its own text behind a stripped underscore, in its own part of the copies |
| `CoffSymbols.ReadSymbols` | backtrace_libbt/libbacktrace/src/pecoff.c:341-469 | From the symbol table to the sorted table with its sentinel, or failure exactly on a bad entry; `SymbolAddress`, `FindFunction` and `SmallSymbols` say in numbers what the table holds |
| `CoffSymbols.FindFunction` | backtrace_libbt/libbacktrace/src/pecoff.c:341-531 | End to end: for every entry the walk comes to of a kind from 0x20 to 0x2f in an existing section n, searching the table that was read for base + sections[n-1] + value, without wrap-around, finds a symbol of exactly that address |
| `CoffSymbols.SymbolAddress` | backtrace_libbt/libbacktrace/src/pecoff.c:442-450 | The address of every symbol: value and section address in 32 bits, the base in 64; and where a long name starts |
| `CoffSymbols.SectionMoved` | backtrace_libbt/libbacktrace/src/pecoff.c:442-450 | Adding d to the address of a section adds d to the addresses of its own symbols and of no others |
| `CoffSymbols.SmallSymbols` | backtrace_libbt/libbacktrace/src/pecoff.c:399-459 | A table of three entries and its two symbols, name and address: an auxiliary entry is skipped, an underscore is stripped, a long name is found in the strings |
| `CoffSymbols.SymbolStays` | backtrace_libbt/libbacktrace/src/pecoff.c:426-436 | Copying further names changes neither the text nor the place of an earlier one |
| `CoffSymbols.FindSymbol` | backtrace_libbt/libbacktrace/src/pecoff.c:517-531 | In any table of the symbols that rises to the sentinel, the search gives a symbol of the greatest address not above the key, and none exactly when the key is below all |
| `CoffSymbols.TableRises` | backtrace_libbt/libbacktrace/src/pecoff.c:457-462 | The sorted table with its sentinel is such a table |

## Left out

- Inflate.InflateStream: a stream that asks for a preset dictionary is refused (elf.c:1697) and is not among the encoded streams; it claims nothing about streams with a stored header on a byte boundary or about a second stream behind the first, beyond the checks of the header bytes.
- Inflate.StoredBlock: the loops that align the input pointer may look at up to three bytes behind the input, which the model takes to be readable.
- InflateTable.TableDecodes: what the unassigned codes of an incomplete set of lengths are decoded as is not described.
- DynamicHeader.ReadOrder: the statements of the source are grouped by refill, five lengths at a time.
- AppendList.EveryRun: steps are interleaved one at a time; weaker orders of memory, and the part of `dwarf_fileline` between the loads, are not modelled.
- Publication.SafeIffDeterministic: the walk to other units when reading fails is not part of the model.
- Freelist.EveryRunIsSafe: the sizes are unbounded numbers, so the wrap-around of `size_t` in rounding is not modelled; the lock is an answer (always granted without threads), not a shared variable.
- Mmap.State.Alloc: memory is 8-byte words, so a client's stores of single bytes are not modelled.
- GrowableVector.Run: element sizes are multiples of 8, as they are for every vector of structures in the library; a vector of single bytes is not covered.
- SectionList.Bfd.Run: one list at a time; sections that move between two binaries are not modelled.
- Leb128.ReadUleb: the 32-bit counter of the shift does not wrap around, which takes a number of over 600 million bytes.
- LineProgram.ReadLineProgram: one operation for each instruction and no base address, so the division by `max_ops_per_insn` (dwarf.c:1779) and the comparison of an unbased with a based address (dwarf.c:1543) do not appear; lines wrap to 32 bits where the source leaves overflow undefined; the text of a defined name is its place in the section; memory does not run out.
- LineMachine.RefinesIff: a file number is resolved when it is set; a first file that the header does not have is no name.
- LineMachine.Step: directory number 0 of a defined name is taken to have a directory; the source uses the compilation directory there, which may be NULL (dwarf.c:1827-1838; the header code checks for that at dwarf.c:1696).
- Abbrevs.ReadAbbrevs: reports of overlong numbers, which are made once in each pass, are not followed.
- CoffSymbols.ReadSymbols: the text of a name in the string table is its offset; it ends where its zero byte is, which the source does not check to be inside the table.
- Line headers, attributes, functions, inlined calls and address ranges of DWARF: the searches over nested ranges are not exact (dwarf.c:831-845, 931-945), and references between entries may be cyclic without a measure (`read_referenced_name`).
- Reading of ELF and PE headers, views of files, debug links and build ids: input and output.
- `alloc.c`, `atomic.c`, the demonstration programs and option parsing: too small to add anything.
