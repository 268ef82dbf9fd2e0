# A verified model of the compression and DNS name codecs

This project models, in Dafny, two parts of the repository.

* The DEFLATE/zlib codec `libhttp/miniz.c`: building Huffman codes in place, the LZ77 parser with its circular
  dictionary and hash chains, the packed token buffer, the three kinds of blocks, the streaming compressor, the
  inflater with its lookup tables, bit reader and copy loops, the checksum, delivery through a window, and the name
  index of ZIP archives. It follows RFC 1951 (DEFLATE) and RFC 1950 (zlib).
* The DNS name codec in `llarp/dns.cpp`, `llarp/dnsc.cpp` and `llarp/dnsd.cpp`: three encoders, two decoders,
  compression by pointers, the query a client builds and the server reads back, and the way of a response through
  the client and the server to the one who asked. It follows RFC 1035.

State that the source updates in place is state here: structs are classes, buffers are arrays, and loops are loops
with invariants. Each method is proved against a specification that does not mention it. For the codec that
specification is a decoder written down as functions on sequences of bits (`Format`, `Blocks`), for which

1. every bit sequence the compressor emits decodes to the input taken, whatever the flags, the sizes of the pieces
   in which input arrives and output is fetched, and the contents of the hash chains
   (`Compressor.Deflater.Compress`), and
2. the inflater, called again and again with whatever pieces the input arrives in and whatever room there is for
   output, stopping in the middle of a symbol, a header or a copy and going on from there, makes exactly what the
   specification reads from the input as a whole (`Decompressor.Inflator.Run`, `InflateWindow.Stream.Inflate`),

so that compressing and uncompressing gives the input back, in one call or in any number of them
(`Zlib.RoundTrip`, `Zlib.StreamedRoundTrip`).

The modules, from the bottom up:

| modules | what they hold |
|---|---|
| `Arith`, `Bits` | shifts and masks as recursive functions, bits and bytes |
| `Canonical`, `SymFreqs`, `HuffmanTree`, `MinRedundancy`, `Optimality`, `LengthLimit`, `LimitedCode`, `RadixSort`, `HuffmanTable` | building a Huffman code, and how far limiting its lengths can take it from the best one |
| `DecodeTable`, `BitReader`, `HuffDecode` | decoding one, from input that arrives in pieces |
| `Tokens`, `Format`, `Blocks`, `CodeLengths` | the format: tokens, blocks, headers, and the decoder that serves as specification |
| `BitIO`, `CodeBuffer`, `BlockWriter`, `BlockSize`, `DynamicBlock`, `BlockFlush` | writing blocks, and how large they can get |
| `Dictionary`, `Parser`, `Deflate`, `Compressor`, `Adler` | the compressor |
| `MatchCopy`, `OutputBuffer`, `Inflater`, `StoredReader`, `HeaderReader`, `BlockReader`, `Decompressor` | the inflater: copies, the window, the three kinds of block, streams, and the object that is called piece by piece |
| `InflateWindow`, `Zlib` | inflating through a window, and the one-call functions |
| `ZipIndex` | the sorted name index |
| `DnsNames`, `DnsPacket`, `DnsForward` | DNS names, headers, questions and queries, and responses that are sent on |

Two things the source leaves open are settled. It calls a dynamic block that does not fit the output buffer
"extremely unlikely (if not impossible)", keeps a fallback for it, and asserts that a flush never fills the buffer. It
is impossible: limiting the code lengths to 15 bits costs at most 183 bits for each symbol over the best code
(`LimitedCode.AssignedCost`), so every dynamic block takes at most 674000 bits and leaves room for any flush
(`BlockSize.DynamicBody`, `BlockFlush.EmitBlock`, `Compressor.WriteFlush`). And it asserts that at the end of a stream
no bit beyond the stream is left in the bit buffer, which holds for every stream the format gives a meaning to, however
the input was cut (`Decompressor.EndStream`).

The same bound on a block, and one from below on the data a block that fills up stands for, bound whole streams:
without flushes on the way, n bytes never take more than 85179 * (n / 31744 + 1) bytes, so that compressing into a
buffer of that size succeeds, and compressing by pieces ends before as many calls as that have been made
(`Compressor.Deflater.SmallStream`, `Zlib.Compress`, `Zlib.CompressPieces`).

Where properties one might expect turned out false of the code, the exact condition is proved:

* A name is read back by `getDNSstring` if and only if no label is empty, longer than 255 bytes, or exactly 192 bytes
  long, because a length of 192 is taken for a pointer (`DnsNames.NameRoundTrip`, `DnsNames.LabelOf192`).
* A client's query is read back by the server if and only if its labels have 1 to 127 bytes (lengths are held in a
  signed character) and the type is below 256 (only its low byte is sent) (`DnsPacket.QueryRoundTrip`,
  `DnsPacket.LabelOf128`, `DnsPacket.TypeOf256`).
* The direction bit of a header survives encoding if and only if the second bit of the operation code is clear, because
  the operation code is shifted three places too far (`DnsPacket.HeaderRoundTrip`, `DnsPacket.StatusQuery`). A header
  that was received never has such an operation code, because the decoder masks it away (`DnsPacket.MaskedAway`).
* A response sent on goes out under the identifier of the one who asked. Direction and response code survive where the
  header received is kept; on the third path, which does not keep it, they are whatever the request held
  (`DnsForward.Relay`). The counts are those of what was read, and the records of all three sections are put among the
  answers, so the counts survive if and only if there are no authority and no additional records and the answers are
  not broken off (`DnsForward.CountsSurvive`). A response read whole goes out with all its records counted as answers
  (`DnsForward.CountsSent`, and `DnsForward.AuthorityBecomesAnswer` for one where that matters); on the path that
  passes the length of an address for the size of the packet at most one record of each section is left
  (`DnsForward.AddressForSize`).
* Halving the sorted index of an archive and scanning it find the same file for every name if and only if, among the
  files whose names differ in case only, halving comes upon the first one first (`ZipIndex.LookupsAgree`). For "a"
  and "A" it does not (`ZipIndex.TwoCases`); for "a", "A" and "b" it does (`ZipIndex.ThreeNames`); when no two names
  differ in case only it always does (`ZipIndex.DistinctAgree`).

The inflater also goes on after some things the format gives no meaning to: bits that match no code word of an
incomplete code, which it takes for symbol zero, length symbols 286 and 287, distance symbols 30 and 31, and, in a
window, distances that reach back before the first byte. A ghost flag `stray` follows it there; the steps say exactly
when it is set (`Inflater.LengthStep`, `Inflater.DistanceStep`, `Inflater.OffsetStep`, `Inflater.PutStep`). It is never
set on a readable stream, and without it whatever is reported done was one (`Decompressor.Inflator.Outcome`,
`Zlib.Decompress`).

## Model

| member | source | states |
|---|---|---|
| RadixSort.RadixSortSyms | libhttp/miniz.c:706-737 | for every length and 16-bit keys the buffer returned, whichever of the two it is, holds the input sorted by key, equal keys in their old order |
| RadixSort.StablySortedPermutation | libhttp/miniz.c:706-737 | stably sorted implies a permutation of the input |
| RadixSort.OnePassSorts | libhttp/miniz.c:717-718 | when all high bytes are zero, grouping by the low byte alone is a stable sort |
| RadixSort.TwoPassesSort | libhttp/miniz.c:719-735 | grouping by the low byte and then by the high byte is a stable sort by 16-bit key |
| HuffmanTree.TakeLightest | libhttp/miniz.c:755-768 | each of the two tests of the first phase picks the lightest of the nodes not yet merged, and no cell is overwritten before its last use |
| HuffmanTree.MergeTwo | libhttp/miniz.c:753-769 | one round merges the two lightest nodes, keeping parents, weights and leaves apart in the one array |
| MinRedundancy.InternalDepths | libhttp/miniz.c:770-772 | the second phase replaces every parent by a depth, each one more than that of its parent |
| MinRedundancy.LeafDepths | libhttp/miniz.c:773-792 | the third phase leaves every leaf's depth in the leaf's own cell |
| MinRedundancy.KraftLevels | libhttp/miniz.c:773-792 | the leaves below each level fill exactly the room its nodes leave, so that the Kraft sum is one |
| MinRedundancy.FibUp | libhttp/miniz.c:750-769 | going up the tree, weights grow at least as fast as the Fibonacci numbers |
| MinRedundancy.DepthBound | libhttp/miniz.c:796-799 | with counts that sum to less than 2^16 no internal node is deeper than 21, so every leaf depth indexes the 33-entry histogram |
| Optimality.HuffmanStep | libhttp/miniz.c:750-769 | merging the two lightest items turns any code for all of them into one for the merged items that is shorter by at least their weight |
| Optimality.StageBound | libhttp/miniz.c:750-769 | any code for the nodes not yet merged costs at least the weights of the nodes still to be made |
| Optimality.CostLevels | libhttp/miniz.c:773-792 | the depths found cost exactly the weights of all internal nodes |
| Optimality.CalculateMinimumRedundancy | libhttp/miniz.c:740-793 | from ascending counts, the array ends up holding lengths with Kraft sum exactly one, no longer for a more frequent symbol, none above 22, whose total cost no code with Kraft sum at most one beats, and which are long only for symbols that all the others outweigh as the Fibonacci numbers grow |
| LengthLimit.AdjustPossible | libhttp/miniz.c:810-821 | as long as the Kraft sum is too large there are a longest code to drop and a shorter one to split |
| LengthLimit.AdjustStep | libhttp/miniz.c:812-820 | each adjustment keeps the number of codes and lowers the sum by one unit |
| LimitedCode.EnforceMaxCodeSize | libhttp/miniz.c:800-822 | ends, conserves the number of codes, leaves none longer than the limit and Kraft sum exactly one, and with a limit of 15 there are lengths with that histogram in which codes shorter than the limit have only grown, and only from 7 bits on |
| LimitedCode.Rate | libhttp/miniz.c:810-821 | a symbol lengthened by the limiter pays at most 122 bits for each unit of the Kraft sum it frees |
| LimitedCode.AssignStep | libhttp/miniz.c:812-820 | each adjustment of the histogram can be followed by the symbols: there are lengths with the new histogram that still balance what is freed against what may be taken |
| LimitedCode.AssignedCost | libhttp/miniz.c:800-822 | limiting a best code for at most 288 symbols to 15 bits costs at most 183 bits for each symbol |
| HuffmanTable.HandOut | libhttp/miniz.c:854-858 | every symbol gets a length, the most frequent the shortest, and the histogram is used up exactly |
| HuffmanTable.HandedNearly | libhttp/miniz.c:854-858 | handing the limited lengths out by frequency costs at most 183 bits for each symbol in use more than any code for those symbols, of whatever lengths |
| HuffmanTable.OptimizeHuffmanTable | libhttp/miniz.c:824-875 | exactly the symbols with a count get a code, none longer than the limit, none longer for a more frequent symbol, canonical and bit-reversed, complete when two or more are in use, and with a limit of 15 at most 183 bits for each symbol in use worse than any code for those symbols, of whatever lengths |
| Canonical.TotalIsKraft | libhttp/miniz.c:2480-2490 | the decoder's running total is the Kraft sum, so its test is the completeness of the code |
| Canonical.CodeFits | libhttp/miniz.c:861-874 | codes of lengths with Kraft sum at most one fit their lengths |
| Canonical.PrefixFree | libhttp/miniz.c:861-874 | no code word, as sent, begins with that of another symbol, for all lengths with Kraft sum at most one |
| Canonical.ReverseCode | libhttp/miniz.c:871-872 | the reversal loop shared by encoder and decoder yields the number whose bits, lowest first, are the code word |
| Canonical.AssignCodes | libhttp/miniz.c:861-874 | the encoder gives every used symbol its canonical code, bit-reversed |
| DecodeTable.DecoderCodes | libhttp/miniz.c:2480-2486 | the decoder starts from the same first codes as the encoder, and computes the Kraft sum |
| DecodeTable.RoomSum | libhttp/miniz.c:2509-2529 | in a complete code there are no more inner tree nodes than longer codes |
| DecodeTable.NodeBound | libhttp/miniz.c:2509-2529 | the tree of an accepted table of up to 288 symbols has at most 288 nodes, so every index is inside its 576 entries |
| DecodeTable.InsertShort | libhttp/miniz.c:2499-2508 | exactly the indices whose low bits are the code word receive its entry |
| DecodeTable.InsertLong | libhttp/miniz.c:2509-2529 | entering a long code adds it to the tree and leaves all codes entered before in place |
| DecodeTable.BuildTable | libhttp/miniz.c:2469-2530 | succeeds if and only if the lengths are complete or at most one is in use, and then the lookup array and tree represent exactly the canonical code |
| DecodeTable.DecodeSym | libhttp/miniz.c:2305-2337 | bits that begin with a symbol's code word decode to that symbol and its length; nothing else but symbol zero comes out of bits that begin with none |
| BitIO.BitWriter.PutBits | libhttp/miniz.c:877-893 | appends the bits, lowest first, to everything written, without loss as long as there is room |
| BitIO.BitWriter.Restore | libhttp/miniz.c:1244-1245 | going back to a saved state forgets exactly what was written since |
| CodeLengths.SizePacker.FlushRepeats | libhttp/miniz.c:895-913 | sends the pending repeats without changing what the items stand for |
| CodeLengths.SizePacker.FlushZeros | libhttp/miniz.c:915-939 | sends the pending zeros without changing what the items stand for |
| CodeLengths.SizePacker.Add | libhttp/miniz.c:971-994 | one more length is seen and accounted for; runs never exceed 6 and 138 |
| CodeLengths.PackCodeSizes | libhttp/miniz.c:963-1003 | the packed items expand to exactly the lengths given, take no more bytes than there are lengths, never begin with a repeat, and are counted exactly |
| Tokens.LengthRoundTrip | libhttp/miniz.c:639-699 | for every match length the symbol and extra bits sent are read back as the length |
| Tokens.DistanceRoundTrip | libhttp/miniz.c:660-699 | for every distance the symbol and extra bits sent are read back as the distance |
| Format.SymbolIs | libhttp/miniz.c:2305-2337 | at most one code word stands at a position of a stream |
| Format.TokensRoundTrip | libhttp/miniz.c:2560-2724 | decoding passes over the bits of any sequence of tokens and expands them |
| Format.CodesRoundTrip | libhttp/miniz.c:2560-2724 | tokens and end-of-block marker decode to what the tokens expand to, and decoding stops exactly behind the marker |
| Format.ItemsRoundTrip | libhttp/miniz.c:2531-2558 | reading code lengths passes over any packed items and expands them |
| Format.SizesRoundTrip | libhttp/miniz.c:2460-2466 | the lengths of the code length code come back from the order they are sent in |
| Blocks.HeaderRoundTrip | libhttp/miniz.c:2453-2558 | the code lengths of every valid dynamic header are recovered, and reading stops exactly behind it |
| Blocks.StoredRoundTrip | libhttp/miniz.c:2389-2430 | a stored block decodes to its bytes from any bit position |
| Blocks.StaticAccepted | libhttp/miniz.c:2437-2452 | the static code lengths describe complete codes |
| Blocks.BlockRoundTrip | libhttp/miniz.c:2385-2726 | every stored, static or dynamic block decodes to its data, wherever it starts and whatever follows |
| Blocks.AddBlock | libhttp/miniz.c:2385-2726 | adding a block to a decodable stream adds its data; a last block completes it |
| CodeBuffer.LzCodes.RecordLiteral | libhttp/miniz.c:1628-1639 | one literal is added to the tokens recorded, and counted |
| CodeBuffer.LzCodes.RecordMatch | libhttp/miniz.c:1641-1669 | one match is added to the tokens recorded, and counted |
| CodeBuffer.LzCodes.Seal | libhttp/miniz.c:1221-1222 | the buffer then is exactly the packed form of the tokens recorded |
| CodeBuffer.LzCodes.Reset | libhttp/miniz.c:1303-1310 | an empty buffer with all counts zero |
| CodeBuffer.EnterGroup | libhttp/miniz.c:1157-1158 | the flag byte read is that of the group that follows |
| CodeBuffer.ReadToken | libhttp/miniz.c:1155-1188 | the reader of the packed buffer finds the kind and payload of every token in turn |
| CodeBuffer.LayoutCovered | libhttp/miniz.c:1628-1669 | the buffer is never filled further than nine eighths of the data its tokens stand for, and a byte, so that a full one stands for much data |
| BlockWriter.PutMatch | libhttp/miniz.c:1159-1181 | a match is sent as the bits the format prescribes |
| BlockWriter.CompressLzCodes | libhttp/miniz.c:1149-1194 | the packed tokens are sent as the bits the format prescribes, followed by end of block; true exactly if the buffer did not fill up |
| DynamicBlock.CodeWordTrim | libhttp/miniz.c:954-959 | leaving off unused codes at the end changes no code word |
| DynamicBlock.BuildTables | libhttp/miniz.c:949-952 | every symbol the tokens use has a code, both codes pass the decoder's test, and the last two codes of each alphabet are unused |
| DynamicBlock.StartDynamicBlock | libhttp/miniz.c:943-1028 | what is sent is the header of a valid dynamic block for exactly the tokens recorded |
| BlockSize.StaticBlockFits | libhttp/miniz.c:1030-1050 | a static block of any tokens that fit their buffer fits the output buffer |
| BlockSize.PlainCompetes | libhttp/miniz.c:1149-1204 | 9 bits for a literal, 6 for a length and 5 for a distance symbol is a code the built one is nearly as good as |
| BlockSize.DynamicTokens | libhttp/miniz.c:1149-1204 | with the codes built for them, tokens that fit their buffer take at most 666750 bits |
| BlockSize.DynamicBody | libhttp/miniz.c:943-1028 | so does every dynamic one, with its header: at most 674000 bits |
| BlockFlush.StartStaticBlock | libhttp/miniz.c:1030-1050 | leaves the canonical codes of the static lengths and sends the block type |
| BlockFlush.CompressBlock | libhttp/miniz.c:1197-1204 | the block sent is a valid one of the kind asked for, made of the tokens recorded |
| BlockFlush.PutRawBlock | libhttp/miniz.c:1246-1258 | the block sent is a stored block of the bytes in the dictionary |
| BlockFlush.EmitBlock | libhttp/miniz.c:1236-1266 | whichever of stored, static and dynamic is chosen exactly one whole valid block is added to the output and eight bytes of room are left; a stored one has precisely the bytes the tokens stand for; the fallback for a block that does not fit is never taken |
| Adler.BlockFits | libhttp/miniz.c:47-60 | the sums of 5552 bytes from any start below 2^16 fit 32 bits |
| Adler.SumsConcat | libhttp/miniz.c:39-65 | the sums of two pieces compose |
| Adler.SumsReduce | libhttp/miniz.c:60 | reducing the sums between blocks does not change the checksum |
| Adler.Adler32 | libhttp/miniz.c:39-65 | continuing the checksum of any data over any further data gives that of both, with no 32-bit overflow, for an empty first block too |
| Dictionary.PushWindow | libhttp/miniz.c:1691-1698 | storing a byte, with its copy behind the end, keeps the live window correct |
| Dictionary.ReadWindow | libhttp/miniz.c:1412-1454 | reading up to 257 bytes forward from any place of the window needs no wrap-around |
| Dictionary.MatchExtends | libhttp/miniz.c:1750-1793 | a match that repeats the data extends the output by exactly the data |
| Dictionary.ProbePosition | libhttp/miniz.c:1428-1431 | positions kept in 16 bits give the exact place in the dictionary |
| Dictionary.HashOfThree | libhttp/miniz.c:1684-1697 | the rolling hash depends on the last three bytes only |
| Dictionary.Lookahead.Insert | libhttp/miniz.c:1696-1697 | a position is put at the head of the chain of its own three bytes, with the former head behind it |
| Dictionary.Lookahead.TakeRolling | libhttp/miniz.c:1680-1701 | every position is entered under the hash of its own three bytes, though only one byte is hashed at a time |
| Dictionary.Lookahead.MatchLength | libhttp/miniz.c:1440-1444 | as many bytes as it returns repeat those at the distance |
| Dictionary.Lookahead.Fill | libhttp/miniz.c:1680-1721 | takes in as many bytes as the longest match needs or there are, in order, and keeps the window correct |
| Dictionary.Lookahead.FindMatch | libhttp/miniz.c:1412-1454 | whatever the chains contain, the result is the match passed in or a longer one that really repeats the data, within the distance and length allowed |
| Parser.Matcher.RunLength | libhttp/miniz.c:1734-1741 | the run found repeats the previous byte |
| Parser.Matcher.Candidate | libhttp/miniz.c:1726-1755 | any candidate is a real repetition of acceptable length and distance, and there is none when stored blocks are forced |
| Parser.Matcher.SettleHeld | libhttp/miniz.c:1756-1780 | the tokens recorded afterwards stand for the data up to the new position, but for one byte if a match is held again |
| Parser.Matcher.SettleHere | libhttp/miniz.c:1781-1793 | the same, for a position without a held match |
| Parser.Matcher.Step | libhttp/miniz.c:1725-1798 | in every state and for all flags, a step keeps the invariant that expanding the recorded tokens gives exactly the data passed over, and moves on |
| Deflate.StreamGrows | libhttp/miniz.c:1206-1339 | a stream whose last bits are not yet a byte stays decodable, or is completed, when a block is added to those bits |
| Deflate.PutEmptyBlock | libhttp/miniz.c:1286-1298 | what a sync or full flush adds is an empty stored block |
| Deflate.PutChecksum | libhttp/miniz.c:1276-1284 | the checksum is sent highest byte first |
| Deflate.PutTail | libhttp/miniz.c:1268-1299 | what is added after the block is exactly what the kind of flush calls for |
| Compressor.StillHeld | libhttp/miniz.c:1240-1241 | when the test for a stored block succeeds its bytes are still in the dictionary |
| Compressor.FlushGrows | libhttp/miniz.c:1206-1299 | block and flush together keep the stream decodable, or complete it |
| Compressor.WriteBlock | libhttp/miniz.c:1221-1266 | the block written adds exactly the data parsed since the last one |
| Compressor.WriteFlush | libhttp/miniz.c:1206-1301 | block and flush are written and the assertion that the buffer is not full holds, whatever the data, the flags and the flush |
| Compressor.Deflater.constructor | libhttp/miniz.c:1911-1944 | a new compressor has an empty, valid state |
| Compressor.Deflater.FlushBlock | libhttp/miniz.c:1206-1339 | nothing may be pending; afterwards bytes handed out and pending are those of the stream, which decodes to the data parsed |
| Compressor.Deflater.CompressNormal | libhttp/miniz.c:1671-1814 | takes a prefix of the input, all of it unless output is pending, keeps the stream decodable and ends blocks only when nothing is pending |
| Compressor.Deflater.FlushOutput | libhttp/miniz.c:1816-1835 | output and pending bytes together stay the same; done exactly if finished and nothing is pending |
| Compressor.Deflater.ForgetHistory | libhttp/miniz.c:1894-1899 | forgetting the dictionary keeps the state valid |
| Compressor.Deflater.Compress | libhttp/miniz.c:1837-1903 | over every sequence of calls with any input pieces, output sizes and flushes, the bytes handed out are a prefix of one stream; a call is refused exactly after the end or a broken promise to finish; once Done they inflate to exactly the input taken, all of it, in the wrapping asked for; output room left over means all input is taken, and a call to finish that has room hands out at least a byte until Done |
| Compressor.Deflater.SmallStream | libhttp/miniz.c:1799-1808 | a block is ended only for being full when it stands for 31744 bytes of data or more, so without flushes on the way all bytes handed out stay within the bound, and below it until the end |
| BitReader.Reader.GetBits | libhttp/miniz.c:2227-2268 | reads exactly the next bits of the input, taking in no byte it does not need, or stops with the whole piece in the bit buffer exactly if the piece ends too early, to go on with the next one |
| BitReader.Reader.Feed | libhttp/miniz.c:2362-2363 | a new piece of the input is gone on with at the same position |
| BitReader.Reader.PutBack | libhttp/miniz.c:2731-2736 | whole bytes of the present piece that were read ahead are given back, and the position stays |
| BitReader.Reader.Align | libhttp/miniz.c:2391 | moves to the next byte boundary |
| HuffDecode.HuffTable.Build | libhttp/miniz.c:2469-2530 | usable tables exactly if the lengths are accepted |
| HuffDecode.BitbufFill | libhttp/miniz.c:2274-2297 | near the end of the input, the code word standing there is found, and no byte is read that it does not need |
| HuffDecode.Decode | libhttp/miniz.c:2302-2337 | the symbol whose code word stands next in the input, and the position behind it; or, if the piece ends before any code word is complete, nothing, to go on with the next piece; symbol zero if no code word ever matches |
| MatchCopy.CopySlowly | libhttp/miniz.c:2671-2684 | the wrap-around loop extends the output by the overlapping copy |
| MatchCopy.CopyWords | libhttp/miniz.c:2686-2694 | the eight-byte copy does the same for matches that do not reach their own output |
| MatchCopy.CopyThrees | libhttp/miniz.c:2708-2723 | the three-byte copy does the same for every distance |
| MatchCopy.CopyMatch | libhttp/miniz.c:2665-2723 | whichever is taken, the buffer holds the one-byte-at-a-time copy of length and distance, for every distance and length and any place in the window |
| OutputBuffer.Sink.Copy | libhttp/miniz.c:2665-2723 | a match is added as far as the buffer goes, and the window keeps holding the last 32768 bytes made; for a distance within the output it is the overlapping copy |
| OutputBuffer.RingWrap | libhttp/miniz.c:490 | a full window that is begun again still holds the last 32768 bytes made |
| OutputBuffer.Sink.Restart | libhttp/miniz.c:489-490 | so the next bytes can go to its start |
| Inflater.FastStep | libhttp/miniz.c:2577-2641 | two symbols decoded with one check of the buffers are those the checked path would find |
| Inflater.SlowStep | libhttp/miniz.c:2565-2575 | one symbol decoded with every check, suspended exactly if the piece ends before its code word does |
| Inflater.MatchStep | libhttp/miniz.c:2646-2669 | length bits, distance symbol and distance bits, each of which may be where the piece ends, lead to what the format says of the match |
| Inflater.LengthStep | libhttp/miniz.c:2646-2653 | the extra bits of a length give the length of the format; astray exactly for symbols 286 and 287 |
| Inflater.DistanceStep | libhttp/miniz.c:2655 | the distance symbol is the one the format reads; astray exactly if no code word stands there |
| Inflater.OffsetStep | libhttp/miniz.c:2656-2669 | the extra bits of a distance give the distance of the format, refused if it reaches back before a buffer that holds everything; astray exactly for symbols 30 and 31 |
| Inflater.PutStep | libhttp/miniz.c:2570-2684 | literals and copies go on after the output was full where they stopped |
| Inflater.OutputGrows | libhttp/miniz.c:2560-2724 | a block only ever adds to the output |
| Inflater.RunCodes | libhttp/miniz.c:2560-2724 | from any place inside a block at which it was suspended, what the block says as a whole is what it says from where this call stops; done exactly with all of it made; it ends for every input |
| HeaderReader.RunStep | libhttp/miniz.c:2542-2550 | a run is written as the format says; even the longest at the last place stays inside the 457 entries |
| HeaderReader.SymbolStep | libhttp/miniz.c:2531-2541 | the code lengths read are those the specification reads |
| HeaderReader.BuildBoth | libhttp/miniz.c:2469-2530 | both tables are built exactly if both sets of lengths are accepted |
| HeaderReader.RunHead | libhttp/miniz.c:2453-2559 | from any place in the header at which it was suspended, the tables built at the end are those the specification reads, and it fails only if that reads none |
| BlockReader.SetStatic | libhttp/miniz.c:2437-2452 | the tables are those of the static codes |
| StoredReader.RunRaw | libhttp/miniz.c:2389-2430 | a stored block is copied as the specification says, through the bit buffer and past it, however often input or room run out |
| StoredReader.StoredGoes | libhttp/miniz.c:2389-2402 | four bytes from the next byte boundary are the length and its complement of the specification |
| BlockReader.BeginBlock | libhttp/miniz.c:2387-2453 | the three bits in front of a block lead to what the specification says of its kind |
| BlockReader.RunStream | libhttp/miniz.c:2385-2726 | what the stream says as a whole is what it says from where this call stops; done exactly with all of it made; it ends for every input |
| BlockReader.SaysGrows | libhttp/miniz.c:2385-2726 | at every point what has been made is the beginning of what the stream says |
| BlockReader.PhaseBeyondAll | libhttp/miniz.c:2227-2236 | if the input ends where more is asked for, the stream was not complete |
| BlockReader.SaysOwes | libhttp/miniz.c:2406-2409 | if room is asked for, the stream has more to say |
| Decompressor.HeaderStep | libhttp/miniz.c:2370-2383 | the header is passed exactly if its two bytes are there and pass the checks, the window size included |
| Decompressor.EndStream | libhttp/miniz.c:2728-2737 | bytes read ahead are given back and none of the bits beyond the stream are left, as the source asserts |
| Decompressor.CheckStep | libhttp/miniz.c:2739-2750 | the four bytes behind the stream are put together, one at a time |
| Decompressor.FoldedIs | libhttp/miniz.c:2371 | the one they start from is shifted out: the result is the checksum |
| Decompressor.Conclude | libhttp/miniz.c:2755-2804 | the checksum covers the output of every call that went well, and a mismatch is reported exactly if it is not the one behind the stream |
| Decompressor.Inflator.Outcome | libhttp/miniz.c:2339-2805 | in every state: what has been made is the beginning of what the input says; at the end it is all of it and exactly the bytes of the stream have been taken; a readable input is not refused, and more is asked for only if there is more |
| Decompressor.Inflator.Run | libhttp/miniz.c:2339-2805 | one call with the next piece of input and some room keeps that state and reports why it stops: more input only with all of this piece used up, more room only with none left, a mismatch exactly if the checksums differ |
| Zlib.Decompress | libhttp/miniz.c:2846-2853 | a good stream whose output fits is reported done; and what is reported done or mismatched, unless the decoder went astray, was a readable stream, with that output, that many bytes taken, and done exactly if the checksum is right |
| Zlib.WrappedIsGood | libhttp/miniz.c:2370-2803 | what the compressor writes passes every check of the inflater and uses up all input |
| Zlib.Compress | libhttp/miniz.c:310-338 | success means a complete stream of the source within the size given; the only other result is a full buffer, with every byte of it written, and only if it is smaller than the bound |
| Zlib.CompressPieces | libhttp/miniz.c:1837-1903 | called again and again to finish, with whatever room, the bytes handed out are a complete stream once the end is reported, and if each call has room for a byte the end is reported before the bound |
| Zlib.Uncompress | libhttp/miniz.c:524-552 | any good stream gives its text if and only if that fits |
| Zlib.RoundTrip | libhttp/miniz.c:310-552 | what was compressed, of any size and with any flags, is uncompressed to the source; and it is compressed if there is room for the bound |
| Zlib.StreamedRoundTrip | libhttp/miniz.c:310-510 | what was compressed comes back in whatever pieces it is fed and fetched, nothing else comes out on the way, and it all comes back if every call brings a byte and has room for one |
| InflateWindow.Stream.Deliver | libhttp/miniz.c:457-467 | as many waiting bytes as fit are handed out, in order, and the rest keeps waiting |
| InflateWindow.Refill | libhttp/miniz.c:471-482 | what the inflater makes now stands in the window from the offset on; of a good stream it says neither failure nor mismatch, and asks for more only if there is more |
| InflateWindow.Stream.Whole | libhttp/miniz.c:428-452 | finishing on the first call hands out everything, or is an error that lasts and for a good stream means too little input or too little room |
| InflateWindow.Stream.Pump | libhttp/miniz.c:469-509 | the loop ends; a good result with room to write into means progress; the end is announced exactly when everything is handed out |
| InflateWindow.Stream.Inflate | libhttp/miniz.c:400-510 | over every sequence of calls, with any pieces of input and any room, the bytes handed out are the beginning of what the whole input says; at the end they are all of it, their checksum is right and exactly the bytes of the stream have been taken; a good stream is never refused but for want of its own bytes; which calls are refused |
| InflateWindow.Stream.LookBack | libhttp/miniz.c:457-490 | between calls, however often the window has been filled, each of the last 32768 bytes made can be read back from it |
| InflateWindow.PieceByPiece | libhttp/miniz.c:400-510 | however a good stream is cut, it comes out as one run would make it, and if every call brings something and has some room it is finished after at most one call per byte of input and output and one more |
| ZipIndex.LessTrichotomy | libhttp/miniz.c:3364-3382 | of two names exactly one comes first unless they are equal |
| ZipIndex.AtMostTransitive | libhttp/miniz.c:3364-3382 | the order is transitive |
| ZipIndex.FilenameLess | libhttp/miniz.c:3364-3382 | the loop decides the alphabetical order of the lowercased names |
| ZipIndex.FilenameCompare | libhttp/miniz.c:4170-4185 | zero exactly for equal names; with 32-bit lengths the sign is right for names shorter than 2^31 bytes |
| ZipIndex.SiftDown | libhttp/miniz.c:3410-3421 | sinks an entry as the function `Sifted` says |
| ZipIndex.SiftedHeap | libhttp/miniz.c:3410-3421 | which restores the heap and permutes nothing but the heap's own entries |
| ZipIndex.SortByName | libhttp/miniz.c:3393-3443 | leaves exactly the order `HeapSorted` says, names that differ in case only included |
| ZipIndex.HeapSortSorts | libhttp/miniz.c:3393-3443 | which is a permutation of the indices, in the order of the lowercased names |
| ZipIndex.SortedIndex | libhttp/miniz.c:3613-3710 | the index made is determined by the names; every file is in it once, and it is sorted |
| ZipIndex.Scan | libhttp/miniz.c:4254-4297 | finds the first entry that answers the query, by name and comment, with or without path and case, exactly if there is one |
| ZipIndex.BaseNameIs | libhttp/miniz.c:4272-4287 | without its path a name is its longest end without a separator |
| ZipIndex.BinarySearch | libhttp/miniz.c:4186-4222 | finds what halving the index finds, for names of every length; the 32-bit comparison never misleads it |
| ZipIndex.LocateFile | libhttp/miniz.c:4235-4298 | what halving finds if there is an index and only the name counts, and otherwise the first entry that answers the query |
| ZipIndex.LookupsAgree | libhttp/miniz.c:4186-4298 | halving the index and scanning agree on every name if and only if halving comes upon the first file of every name first, a condition on the index alone |
| ZipIndex.TwoCases | libhttp/miniz.c:4186-4298 | for "a" and "A" the index is [1, 0], halving finds file 1 and scanning file 0 |
| ZipIndex.ThreeNames | libhttp/miniz.c:4186-4298 | for "a", "A" and "b" they agree although two names differ in case only |
| ZipIndex.DistinctAgree | libhttp/miniz.c:4186-4298 | if no two names differ in case only they agree |
| ZipIndex.HugeNames | libhttp/miniz.c:4170-4222 | a name of 4 gigabytes or more is never found by scanning; halving looks for what is left of it |
| DnsNames.WireLength | llarp/dnsd.cpp:112-283 | every encoded name is two bytes longer than its text, the length written in front of record data |
| DnsNames.VCodeDomain | llarp/dns.cpp:126-152 | appends the encoded name |
| DnsNames.CodeDomain | llarp/dns.cpp:98-124 | writes the same encoded name into a buffer, of length two more than the text, and nothing behind it |
| DnsNames.GetDnsString | llarp/dns.cpp:38-96 | reads the name at a position as defined, and ends, when every pointer leads back |
| DnsNames.NameRoundTrip | llarp/dns.cpp:38-152 | an encoded name is read back, up to its end, if and only if each label has 1 to 255 bytes and not 192 |
| DnsNames.LabelOf192 | llarp/dns.cpp:38-59 | a label of 192 bytes is taken for a pointer and the name ends two bytes on |
| DnsNames.StandardIsReadable | llarp/dns.cpp:38-152 | names with labels of 1 to 63 bytes satisfy that condition |
| DnsNames.CompressedRoundTrip | llarp/dns.cpp:60-83 | a name whose last labels are replaced by a pointer back is read whole, ending behind the pointer |
| DnsPacket.HeaderRoundTrip | llarp/dns.cpp:228-343 | of any header a caller may fill in, identifier and response code survive always, the direction if and only if the second bit of the operation code is clear; the counts are the sizes of the sections at hand, in 16 bits, and not those of the header |
| DnsPacket.MaskedAway | llarp/dns.cpp:309-343 | a header is read if and only if there are 12 bytes; whatever was sent, operation code and the flags for authority, truncation and recursion come out as zero |
| DnsPacket.StatusQuery | llarp/dns.cpp:228-244 | a header filled in with operation code 2 goes out with the direction turned |
| DnsPacket.PutQuestion | llarp/dns.cpp:246-252 | appends the encoded question |
| DnsPacket.QuestionRoundTrip | llarp/dns.cpp:246-362 | a question is read back, up to its end, if and only if its name can be |
| DnsPacket.BuildQuery | llarp/dnsc.cpp:36-90 | for every name the caller lets through the query fits its 512 bytes and is as defined |
| DnsPacket.ParseQuestion | llarp/dnsd.cpp:405-421 | the server's loop reads the question as defined, with lengths in a signed character |
| DnsPacket.TokenWireIsWire | llarp/dnsc.cpp:67-82 | without empty labels the client's encoder writes what the other two write |
| DnsPacket.QueryRoundTrip | llarp/dnsc.cpp:36-90 | name, type and class of a query are read back by the server if and only if the type is below 256 and the name is empty or has labels of 1 to 127 bytes |
| DnsPacket.LabelOf128 | llarp/dnsd.cpp:405-421 | a label of 128 bytes is not read back |
| DnsPacket.TypeOf256 | llarp/dnsc.cpp:83-85 | a query of type 256 arrives as one of type 0 |
| DnsForward.DecodeAnswer | llarp/dns.cpp:364-584 | reads a record as defined, following a pointer in front of it and passing over its data by length, or by reading the name in it |
| DnsForward.ReadSection | llarp/dnsc.cpp:232-323 | the loop over a section reads its records as defined, broken off behind the first one that ends beyond the size |
| DnsForward.SectionSize | llarp/dnsc.cpp:232-323 | a section gives all the records counted unless it ends beyond the size, at least one if any are counted, and ten bytes are passed for each |
| DnsForward.ReadQuestions | llarp/dnsc.cpp:211-223 | the loop over the questions reads one behind the other |
| DnsForward.Request.Receive | llarp/dnsc.cpp:150-323 | questions are added to the questions and the records of all three sections, in order, to the answers; the header is replaced where the caller keeps it |
| DnsForward.Request.Send | llarp/dnsd.cpp:343-344 | the header goes out with the identifier given and the sizes of the sections held for counts, and the questions follow |
| DnsForward.Relay | llarp/dnsd.cpp:334-350 | a response sent on is read back with the identifier of the one who asked, direction and response code as received if the header is kept and as the request held them, up to its operation code, if not, and the number of records read for the number of answers |
| DnsForward.CountsSent | llarp/dns.cpp:239-244 | of a response read whole all records are counted as answers, and none as authority or additional ones |
| DnsForward.CountsSurvive | llarp/dns.cpp:239-244 | the counts survive if and only if no authority and no additional records are counted and the answers are not broken off |
| DnsForward.AddressForSize | llarp/dnsc.cpp:603-650 | with the length of an address for the size of the packet at most one record of each section is sent on |
| DnsForward.AuthorityBecomesAnswer | llarp/dnsc.cpp:285-304 | a response with counts 1, 1, 1 and 0 goes out with 1, 2, 0 and 0 |

## Left out

- Compressor.Deflater.FlushBlock: writing straight into a large caller's buffer is not told apart from writing into the output buffer and copying.
- Decompressor.Inflator.Run: of inputs that the specification rejects it is stated that they are only reported done after the decoder went astray, not which error is reported, nor whether two ways of cutting them up end alike; the parameter check for windows whose size is no power of two is not modelled, because every window has 32768 bytes.
- Decompressor.EndStream: that no bits are left over, as the source asserts, is stated for streams on which the decoder did not go astray.
- HuffDecode.Decode: bits that match no code word of an incomplete table come out as symbol zero, and no more is stated of them.
- InflateWindow.PieceByPiece: that every stream is finished after so many calls is stated for calls that bring at least one byte, if there is one left, and have room for one.
- DnsNames.GetDnsString: pointers that do not lead strictly back and packets that end too early, for which the source reads on, are given as failures.
- DnsPacket.ParseQuestion: packets that end inside the question, where the source reads on, give no question.
- DnsForward.DecodeAnswer: the data of a record is passed over and not kept; packets that end inside a record, where the source reads on, are given as failures.
- DnsForward.Request.Send: of the packet put together the header and the questions are modelled, not the records behind them.
- DnsForward.Relay: which responses are sent on at all, and which are dropped for the type of their last record, is not modelled.
- Optimality.CalculateMinimumRedundancy: requires counts that sum to less than 2^16, because keys have 16 bits; the compressor is proved to keep to this.
- The tables of length and distance symbols (libhttp/miniz.c:639-699) are given as formulas with the same values.
- The lookahead position is unbounded; the source's 32-bit counter is only used in differences and modulo the dictionary size.
- `tdefl_compress_fast`, the compressor's variants with unaligned or 64-bit accesses, the inflater's variant with a 32-bit bit buffer, and the output callbacks.
- The checksum of the output is always computed, as `mz_inflate` asks for; that callers of `tinfl_decompress` can do without it is not modelled.
- Checks for null pointers and for sizes that do not fit 32 bits, allocation, and `mz_deflateBound`.
- The mapping from compression levels to flags; the results hold for all flags.
- CRC-32, the PNG writer, and reading and writing of ZIP archives other than the name index.
- The data of DNS records and how it is written, matching responses to requests, sockets and callbacks.
- All other parts of the repository: routing, cryptography, storage, the HTTP client and the user interfaces.
