# Glyd, modelled and proved

Glyd is a lossless codec. Almost every part of it is a pair: a fast encoder that works
through cursors, tables and registers, and a decoder that has to undo it. This project
models the parts whose contracts are exact and proves them for all inputs.

The code that changes state is written that way here too: bit cursors and readers, the
arithmetic coder, the Huffman queues, the output cursors, the container builder and the
recipe reader are classes; hash tables, buffers, probability maps and decode tables are
arrays changed in place. Each of these methods is proved against a function or predicate
on values, and the round trips are lemmas and contracts about those.

| files | what they model |
|---|---|
| `Common`, `Bitwise`, `ByteStrings`, `Varints` | bytes, powers of two, exclusive or, sums, little-endian numbers, overlapping copies, varints |
| `Tokens`, `TokenWriter`, `MatchFinder`, `BlockChain` | the LZ token streams, their reference decoder, the branch-free writer, both match finders, and chains of blocks |
| `VectorPrepass`, `VectorDecoder` | the NEON decoder, lane by lane and store by store, against the reference decoder |
| `PrefixCodeTheory`, `CodeLengths`, `Huffman`, `PackageMerge` | code lengths of minimum cost, with and without a length limit |
| `CanonicalCodes`, `BitStreams`, `Sections`, `HuffmanStreams`, `TableWalks`, `HuffmanDecoder`, `LengthTables`, `ByteHuffman` | canonical codes (section 3.2.2 of RFC 1951), bit streams, the three framings, eight interleaved streams, what a walk may rely on, batched and clamped decoding |
| `ArithmeticCoder`, `ProbabilityStages` | the carry-free binary arithmetic coder and the last stages of its predictor |
| `Snappy` | the reference compressor's port, its decoder, and the search for the build that wrote a stream |
| `Recipes`, `RecipeReader`, `Closing`, `Opening`, `Container`, `Planes`, `SnappyPages` | containers opened into text and recipe, and closed again; which segments an input becomes, and the builder that writes them; tensors as byte planes and against a base object; the page codec filled with Snappy |
| `FarMatches` | the long-distance matcher and its cursor |
| `Crc`, `Checksums` | CRC-32C by bytes and in three lanes; the Adler-like sum by bytes, blocks and lanes |
| `Rans` | frequency normalisation and N interleaved rANS coders |
| `FixedLog`, `Dictionary` | the fixed-point logarithm; the dictionary's cover selection |

## Main results

* **LZ.** Whatever the hash function, the window and the mode, the streams of a block make
  the reference decoder rebuild exactly that block, over consecutive blocks with the table
  carried across, and a second parse of a block on the same table. It rests on one
  invariant kept by every bucket update: the stored word is the word at the stored
  position, positions cut to 32 bits included. Which of raw, parse and retry a block is, is
  settled exactly, and no chain takes more than its input.
* **Writer.** Every store of the token writer, conditional or not, lands in what was
  reserved for the block, by charging each token's escape bytes to the input it spans.
* **Vector decoder.** It has the reference decoder's contract: same bytes, same first
  error, same untouched surroundings, for well-formed and malformed streams alike.
* **Huffman.** Two-queue Huffman and package-merge return lengths of minimum cost among
  all prefix codes (within the limit); any data comes back through lengths, packed table,
  interleaved streams in every framing, batched loop and clamped tail, with no overrun, in
  the fewest bits any prefix code of eleven bits takes for it.
  The bytes behind a stream may be anything, as the decoder relies on: with a full code it
  refuses exactly the streams that run out, whatever follows them.
* **Arithmetic coder, Snappy, rANS.** Decoding undoes encoding for all inputs, any
  12-bit predictor, any hash, any number of coders; the Snappy search reproduces every
  stream a listed build wrote. What is written is pinned too: each bit's share of the range,
  the shortest Snappy elements and the first hit of the probes, the rANS frequencies.
* **Container.** Closing what opening built gives the input byte for byte at every
  nesting depth, against a base object or alone, with every kind of segment, given codecs
  that invert each other; filled with the Snappy compressor the page codec does. The
  builder's bytes are those of the segments a function of the input gives, so what opens,
  and as what, is exact.
* **Lane forms.** The three-lane CRC is the byte-table CRC for data of any length. Both
  vector checksums equal the scalar one, with one exception stated below.

## Where the code and its comments differ

* `init_table` is documented (src/finder.rs:343-347) as enough when filled from a prefix
  of the input. A prefix shorter than four bytes fills the table with the word zero, and
  then the table is truthful exactly when the input's first word is zero
  (`MatchFinder.ShortPrefixTruthful`). No caller passes such a prefix: each fills the table
  from the very input it parses (src/lib.rs:353, 369, 399; src/fallback.rs:181;
  src/x86_compress.rs:79), where the table is truthful at every size
  (`MatchFinder.InitTable`).
* `checksum_neon` counts blocks in 32 bits. For an input whose number of whole blocks is a
  positive multiple of 2^32 the count wraps to zero and every whole block is forgotten;
  for all others the result is the checksum (`Checksums.Neon`, `Checksums.ForgottenBlocks`).
  The model takes the wrapping addition of an optimised build.
* The comment on `compress_into_turbo` (src/lib.rs:393-396) speaks of minimum match 8; the
  constant is 10 (src/format.rs:153), and so is the model's.
* `WrappingSub` in `MatchFinder` keeps the source's `pos.wrapping_sub(cand)`: a cut position
  may lie ahead of the current one, and such a candidate is out of the window.

## Model

| member | source | states |
|---|---|---|
| `PrefixCodeTheory.Exchange` | src/huffman.rs:95-188 | giving the lighter of two symbols the longer of their two codes keeps the Kraft inequality and never raises the cost |
| `PrefixCodeTheory.Tighten` | src/huffman.rs:95-188 | any prefix code can be turned, at no more cost, into one with two codes of the greatest length |
| `PrefixCodeTheory.MergeStep` | src/huffman.rs:161-169 | from any prefix code for the nodes, one for the nodes after merging the two lightest, cheaper by the merged weight |
| `PrefixCodeTheory.DominatedMerge` | src/huffman.rs:161-169 | merging two lightest nodes keeps the lower bound on every code's cost |
| `Huffman.Queues.RunEnd` | src/huffman.rs:142-158 | the end of the run of equal weights at the head of the merged queue |
| `Huffman.Queues.Drop` | src/huffman.rs:142-158 | moving up the nodes before it takes exactly one node out of the merged queue, the others in order |
| `Huffman.Queues.Take` | src/huffman.rs:142-158 | removes a node no heavier than any other in the two queues, with the tie rule (merged node first, newest of its weight), and leaves the rest as they were |
| `Huffman.MergeTwo` | src/huffman.rs:161-169 | one merge keeps the state: both queues ascending, no merged node heavier than the two last merged together, the trees holding every leaf once, and the cost so far a lower bound for every code |
| `Huffman.BuildTree` | src/huffman.rs:113-170 | the root holds every used symbol once and its merged weights are at most the cost of any prefix code |
| `Huffman.Walk` | src/huffman.rs:172-187 | the stack walk gives every used symbol its depth in the tree, zero to the rest, within its stack |
| `Huffman.TreeLengths` | src/huffman.rs:172-187 | depths read off the tree cost what its merges cost, use the code space exactly, and stay below the number of symbols |
| `Huffman.HuffmanLengths` | src/huffman.rs:95-188 | the lengths are a prefix code of minimum sum of count times length over all prefix codes, for any counts; lone and empty alphabets included |
| `PackageMerge.MergeRound` | src/huffman.rs:57-74 | a round is the pairs of the one before merged with the leaves, ascending, leaves first among equals |
| `PackageMerge.Rounds` | src/huffman.rs:55-74 | limit rounds, each made from the one before |
| `PackageMerge.NestedPair` | src/huffman.rs:55-74 | the leaves behind the packages a selection takes are a prefix of those it takes in the round after |
| `PackageMerge.OccursBounds` | src/huffman.rs:75-87 | the rounds in which a leaf is chosen are consecutive from the last round back, so its length is their number |
| `PackageMerge.Count` | src/huffman.rs:75-83 | the recursion adds to each symbol exactly how often its leaf lies below the item |
| `PackageMerge.SelectionKraft` | src/huffman.rs:84-87 | the lightest 2n-2 items of the last round give lengths whose Kraft sum is exactly one |
| `PackageMerge.AnyDeep` | src/huffman.rs:34-89 | any code needs, level by level, at least as much weight as the lightest items of a round |
| `PackageMerge.SelectionCheapest` | src/huffman.rs:34-89 | no lengths within the limit that satisfy Kraft cost less than the selection |
| `PackageMerge.PackageMerge` | src/huffman.rs:34-89 | for any number of symbols that fits the limit: a prefix code within the limit, of minimum cost among all of them |
| `PackageMerge.BuildLengths` | src/huffman.rs:22-28 | Huffman's own lengths when they are within the limit, else package-merge's: in both cases minimum cost within the limit |
| `CanonicalCodes.PrefixFree` | src/huffman.rs:191-213 | no canonical code is a prefix of another symbol's, whatever the lengths |
| `CanonicalCodes.CodePlace` | src/huffman.rs:191-213 | the canonical order: a code starts where the code space of all shorter codes, and of all smaller symbols' codes of its length, ends |
| `CanonicalCodes.CodeFits` | src/huffman.rs:191-213 | a code fits its length if the lengths satisfy Kraft |
| `CanonicalCodes.BuildCodes` | src/huffman.rs:191-213 | the count and next-code loops give each symbol its canonical code without leaving 16 bits |
| `CanonicalCodes.ReverseBits` | src/huff8.rs:16-20 | the code's bits in reverse order |
| `CanonicalCodes.ReverseInjective` | src/huff8.rs:16-20 | reversing loses nothing |
| `CanonicalCodes.HitsOne` | src/huff8.rs:67-81 | an index whose low bits are one symbol's reversed code is no other symbol's |
| `CanonicalCodes.BuildTable` | src/huff8.rs:51-83 | a table exactly when the lengths form a prefix code within the limit; each entry names the one symbol whose code its index ends in |
| `CanonicalCodes.TableFinds` | src/huff8.rs:67-82 | looking up bits that start with a symbol's code finds that symbol and its length |
| `BitStreams.BitCursor.Put` | src/bits.rs:43-52 | appends the value's bits above those written, the eight-byte store leaving only bits not yet complete behind the cursor, and nothing before the stream changed |
| `BitStreams.BitCursor.Finish` | src/bits.rs:60-65 | the bytes are the stream's number and no more than its bits need |
| `BitStreams.OrAgain` | src/bits.rs:407-420 | or-ing in bits that were already loaded changes nothing |
| `BitStreams.RefillCompletes` | src/bits.rs:407-420 | a load from where the counted bits end completes the window to 64 bits, whatever was loaded beyond the count |
| `BitStreams.RefillTracks` | src/bits.rs:407-420 | a load, clamped or not, leaves every bit before the padding right, however often the padding was or-ed in |
| `BitStreams.BitReader.constructor` | src/bits.rs:386-404 | a reader at any bit position, in or behind the stream |
| `BitStreams.BitReader.Refill` | src/bits.rs:407-420 | the reader goes on tracking the stream: its bits before the padding are the stream's next, whatever the padding holds, and all of them when it is zeros; 56 to 63 bits are counted |
| `BitStreams.BitReader.Peek` | src/bits.rs:423-425 | the next n bits of the stream at the absolute position, all those before the padding right whatever the padding holds |
| `BitStreams.BitReader.Consume` | src/bits.rs:428-431 | the position moves by n, nothing else |
| `BitStreams.BitReader.Overrun` | src/bits.rs:445-448 | holds exactly when more bits were consumed than the stream has, the start position counted |
| `Sections.Split` | src/bits.rs:85-102 | the method reads the sizes and cuts the streams, or refuses, as the specification says |
| `Sections.WideSplits` | src/bits.rs:85-142 | eight streams written behind 24-bit sizes split into streams that carry the parts, with zero padding behind |
| `Sections.CompactSplits` | src/bits.rs:253-283 | eight streams behind varint sizes split into streams that carry the parts, whatever eight bytes or more follow the section |
| `Sections.SingleSplits` | src/bits.rs:253-283 | a lone stream without a size carries its part |
| `Sections.CarriedNumber` | src/bits.rs:77-102 | the bits of a carried part come first in its stream |
| `HuffmanStreams.PutFour` | src/huff8.rs:139-146 | four codes in one put append the four symbols' codes |
| `HuffmanStreams.EncodeStream` | src/huff8.rs:114-154 | one stream's bytes are its codes' number, with no more bytes than the bits need |
| `HuffmanStreams.FillStream` | src/huff8.rs:114-154 | stream k holds the codes of symbols k, k + streams, ... in order, four at a time and then singly |
| `HuffmanStreams.EncodeWith` | src/huff8.rs:114-154 | the section is the framing of those streams, refused exactly when a size does not fit its field |
| `HuffmanStreams.WalkReads` | src/huff8.rs:166-172 | walking a table along bits that start with the codes of a string reads the string and ends where its codes end |
| `TableWalks.TablePrefixed` | src/huff8.rs:67-82 | whatever bits begin with an entry's code read that entry |
| `TableWalks.FullTable` | src/huff8.rs:67-82 | lengths that use up the code space leave no index of the table without a symbol |
| `TableWalks.FollowsOn` | src/huff8.rs:166-172 | a symbol read at an index that is right only in the stream's own bits is the right one, or both the reader and the true walk have left those bits |
| `TableWalks.BehindUnused` | src/v7_decode.rs:967-970 | the content of the bytes behind a stream is never used: with a table that says a symbol for every index, two streams with the same bytes of their own hold the same number of symbols, and the same symbols |
| `HuffmanDecoder.DecodeFour` | src/huff8.rs:277-369 | one load serves four symbols: the walk's next four, in at most four table widths of bits |
| `HuffmanDecoder.SafeMargin` | src/huff8.rs:185-191 | as many batches as safe_batches allows keep every load inside the stream's bytes |
| `HuffmanDecoder.FastPart` | src/huff8.rs:264-372 | however many batches run, the front of the output is right, every stream stands at the same row, and nothing behind the n symbols is touched |
| `HuffmanDecoder.Tail` | src/huff8.rs:374-386 | the clamped readers finish the output and report exactly whether every stream stayed within its bits; what is accepted is right; the bytes behind the streams may be anything |
| `HuffmanDecoder.DecodeWith` | src/huff8.rs:219-387 | for streams with any bytes behind them: success exactly when no stream is overrun, and then the output is what the table reads along each stream; with zeros behind them the output is that even when refused |
| `HuffmanDecoder.FullCodeCertain` | src/huff8.rs:219-387 | for a table whose code uses up its space the above holds of all streams whatever, corrupt ones included |
| `HuffmanDecoder.CarriedDecodes` | src/huff8.rs:219-387 | for streams that carry the parts of some data that output is the data, with no overrun |
| `HuffmanDecoder.CodedRoundTrip` | src/huff8.rs:114-387 | any data, any prefix code for its symbols, any framing: what is encoded, framed, split and decoded is the data, whatever eight bytes or more follow a compact section |
| `LengthTables.PackedReads` | src/huffman.rs:234-298 | the packed nibbles of any length table read back as the table, whatever follows, and take the bytes they take |
| `LengthTables.ZeroRuns` | src/huffman.rs:234-256 | runs of zeros are taken whole up to sixteen |
| `LengthTables.PackLengths` | src/huffman.rs:234-256 | the loop writes the lengths and the runs of zeros of at most sixteen as the nibble list says |
| `LengthTables.UnpackLengths` | src/huffman.rs:281-298 | the loop reads a table of any count, and refuses one that runs past its bytes or past the symbols |
| `ByteHuffman.Histogram` | src/v7_encode.rs:138-147 | every entry is how often its byte occurs |
| `ByteHuffman.BitsAreCost` | src/huff8.rs:37-43 | the bits some data takes under any lengths are what those lengths cost for its counts |
| `ByteHuffman.LengthsFor` | src/huff8.rs:24-35 | optimal lengths within eleven bits that form a prefix code for exactly the symbols that occur, a full one from two symbols on, a lone symbol getting one bit |
| `ByteHuffman.RoundTrip` | src/huff8.rs:24-387 | any bytes come back through lengths, packed table, encoder, framing and decoder, whatever follows; up to eight megabytes every framing exists; no code within eleven bits takes fewer bits for them |
| `Tokens.CodesRoundTrip` | src/format.rs:245-272 | the token byte's three fields do not disturb each other |
| `Tokens.EscapeReads` | src/fallback.rs:9-29 | an escape of any value it can say reads back, with its length |
| `Tokens.EncodedDecodes` | src/fallback.rs:37-125 | decoding the four streams of any token list plays the list, for every minimum match |
| `Tokens.PlayAppend` | src/fallback.rs:37-125 | playing token lists one after another is playing their concatenation |
| `Tokens.CopyMatch` | src/fallback.rs:110-117 | byte by byte copying repeats what lies offset back, also where the source overlaps what is written |
| `Tokens.ApplyToken` | src/fallback.rs:63-118 | one pass of the loop is the specification's decoding of one token, for every outcome |
| `Tokens.Decompress` | src/fallback.rs:37-125 | the output or the first error of the specification, for all streams, well-formed or not; nothing outside the block is touched |
| `TokenWriter.CutPlays` | src/finder.rs:280-336 | a literal run cut into tokens plays as the run and its match |
| `TokenWriter.CutFewest` | src/finder.rs:280-336 | no run is cut into more tokens than its length needs |
| `TokenWriter.Cursors.PushEscape` | src/finder.rs:258-270 | writes the escape; three bytes of room suffice for its unconditional stores |
| `TokenWriter.Cursors.PutExtras` | src/finder.rs:290-311 | the branch-free 16-bit store leaves exactly the escape bytes the token means |
| `TokenWriter.Cursors.WildCopy` | src/finder.rs:321-335 | the over-writing literal copy leaves exactly the literals in front of the cursor |
| `TokenWriter.Amortised` | src/finder.rs:221-241 | a token's escape bytes never outnumber the input bytes it spans |
| `TokenWriter.Cursors.Emit` | src/finder.rs:280-336 | appends the token, cut as needed, to the streams; every store of it lands in the four reservations, and the span grows by the token's length |
| `TokenWriter.Cursors.Finish` | src/finder.rs:245-252 | the streams are the encoding of the tokens emitted, each within the block length the reservation counts |
| `MatchFinder.InitTable` | src/finder.rs:75-82 | a table initialised from any prefix of four bytes or more, or from the input itself, is truthful: every stored word is the word at its position |
| `MatchFinder.ShortPrefixTruthful` | src/finder.rs:71-82 | initialised from a prefix shorter than four bytes it is truthful exactly when the input's first word is zero |
| `MatchFinder.CandidateProves` | src/finder.rs:377-460 | a word and mask hit on a truthful bucket proves the minimum match, or eight bytes of it |
| `MatchFinder.UpdatesTruthful` | src/finder.rs:398-453 | each of the bucket updates keeps the bucket truthful, positions cut to 32 bits included |
| `MatchFinder.CommonPrefix` | src/finder.rs:122-141 | the eight-byte compare counts exactly the bytes two places share, up to the limit |
| `MatchFinder.BackMatch` | src/finder.rs:467-480 | back-matching counts exactly the bytes two places share backwards |
| `MatchFinder.EmissionRebuilds` | src/finder.rs:482-484 | one more match emitted carries the rebuilt part of the block to its end |
| `MatchFinder.Visit` | src/finder.rs:371-453 | one position looked up and stored keeps the table truthful; a hit is usable: in reach, and proven |
| `MatchFinder.Extend` | src/finder.rs:435-480 | the match extended both ways repeats the input at its distance and obeys the mode's limits |
| `MatchFinder.Grow` | src/finder.rs:575-597 | the fast finder's forward and backward extension repeats the input at its distance and stays inside the block |
| `MatchFinder.FindMatches` | src/finder.rs:348-493 | for any hash, mode and truthful table the reference decoder rebuilds exactly the block from the streams, every match obeys the mode's rule, and the table is truthful for the next block and for a second parse of this one |
| `MatchFinder.FindNext` | src/finder.rs:548-573 | the search stops at a place whose bytes were compared, whatever the table holds |
| `MatchFinder.FindMatchesFast` | src/finder.rs:526-613 | the same round trip for the fast finder, any hash and any table of 32-bit positions |
| `BlockChain.WorthItSaves` | src/lib.rs:210-214 | the integer test is exactly the saving of four parts in a hundred, for every length |
| `BlockChain.ParseBlock` | src/lib.rs:212-247 | the block decodes to its part of the input and is the ordinary parse if that saves 4%; without a retry the ordinary parse if it saves anything; with one the retry if that saves 4%; else the part itself; never larger than its part; the table stays truthful after a dense retry |
| `BlockChain.Compress` | src/lib.rs:367-391 | the chain of blocks decodes to the whole input, the table carried across blocks; one block for every part of at most 256 KB, each settled as ParseBlock says, together no larger than the input |
| `BlockChain.CompressTurbo` | src/lib.rs:397-423 | the same at the turbo level, where a block is its parse exactly when that saves 4% |
| `BlockChain.CompressFast` | src/lib.rs:433-462 | the same at the fast level, where a block is its parse exactly when that saves 4% |
| `VectorPrepass.PrefixSumsSum` | src/neon_decompress.rs:109-121 | four shift-and-add steps give every lane the sum of the lanes up to it |
| `VectorPrepass.LaneReads` | src/neon_decompress.rs:126-153 | a lane's gathered bytes are what the escape reader reads at its offset, unless the escape continues |
| `VectorPrepass.GatherReads` | src/neon_decompress.rs:126-153 | 32 lanes read at once are 32 tokens read one after another |
| `VectorPrepass.TotalsFit` | src/neon_decompress.rs:145-153 | the totals added in wrapping 16-bit lanes are the sums of the 32 lengths, at most 8352 and 16288 |
| `VectorPrepass.Patch` | src/neon_decompress.rs:154-205 | the continuation path leaves the lengths of token-by-token reading too |
| `VectorPrepass.Run` | src/neon_decompress.rs:79-206 | whatever it returns, the 32 literal and match lengths, both totals, the match count and the extras cursor are those of reading token by token |
| `VectorDecoder.RunLiterals` | src/neon_decompress.rs:460-474 | wide literal stores leave the literals, and reach at most the margin behind them |
| `VectorDecoder.PatternFurther` | src/neon_decompress.rs:424-435 | copying from any multiple of the period back carries the pattern on |
| `VectorDecoder.ShortMatch` | src/neon_decompress.rs:416-436 | offsets under 32, the period stride for offsets under 8 included, leave the repeated pattern |
| `VectorDecoder.RunMatch` | src/neon_decompress.rs:484-502 | the wide match copy is the byte-at-a-time copy for every offset, and stays within its margin |
| `VectorDecoder.CopyRun` | src/neon_decompress.rs:441-506 | a chunk accepted by the first pass decodes as token by token, no store reaching the block end |
| `VectorDecoder.PassOne` | src/neon_decompress.rs:277-295 | the first pass accepts only tokens whose wide copies have room in the block, the literals and the offsets |
| `VectorDecoder.CarefulToken` | src/neon_decompress.rs:312-402 | the careful path is one token of the specification, for every outcome |
| `VectorDecoder.Decompress` | src/neon_decompress.rs:210-410 | the vector decoder meets the reference decoder's contract: same output, same first error, for all streams and for any bytes behind the escapes |
| `ArithmeticCoder.MidInside` | src/cm.rs:549-554 | for every 12-bit probability the split leaves both halves non-empty |
| `ArithmeticCoder.SplitShares` | src/cm.rs:548-554 | a 1 gets the lower end of the range, p whole 4096ths of it, and a 0 all the rest; so a 1's part is p/4096 of the range but for less than p |
| `ArithmeticCoder.ShiftFacts` | src/cm.rs:555-559 | shifting out a shared top byte keeps x1 < x2 within 32 bits and widens the range |
| `ArithmeticCoder.SettleOpens` | src/cm.rs:555-559 | shifting ends within four bytes, with differing top bytes |
| `ArithmeticCoder.CodeInside` | src/cm.rs:548-567 | what a coder goes on to write keeps the code value within [x1, x2], and on the side of the split that the next bit says |
| `ArithmeticCoder.Encoder.Flush` | src/cm.rs:562-567 | the four bytes of x1 close the stream |
| `ArithmeticCoder.Encoder.Encode` | src/cm.rs:548-560 | one bit takes the range and the output exactly one step on |
| `ArithmeticCoder.Decoder.Decode` | src/cm.rs:595-611 | one bit takes the decoder's range and position the same step on, and the code value stays inside |
| `ArithmeticCoder.Encode` | src/cm.rs:614-625 | the loops write the code of the input's bits |
| `ArithmeticCoder.Decode` | src/cm.rs:630-642 | the loops fill the output with the bits the stream says, for any stream, and with the input for its code |
| `ArithmeticCoder.RoundTrip` | src/cm.rs:546-642 | decoding the code of any bytes gives the bytes, for any deterministic predictor with 12-bit probabilities |
| `ProbabilityStages.SquashMonotone` | src/cm.rs:104-114 | squash stays within 0..4095 and never falls |
| `ProbabilityStages.SquashMirrored` | src/cm.rs:103-118 | what a logit says for a 1 its negative says for a 0, but for the table's rounding |
| `ProbabilityStages.BuildStretch` | src/cm.rs:126-137 | the table inverts squash: each entry is the first logit that reaches its probability |
| `ProbabilityStages.Apm.Pp` | src/cm.rs:233-239 | the refined probability is the value on the line between the two entries read where the logit stands, rounded down; so it lies between them, within 12 bits, and on an entry is that entry |
| `ProbabilityStages.Apm.SaysEntry` | src/cm.rs:233-239 | where the logit stands on an entry the map says that entry's twelve high bits |
| `ProbabilityStages.MoveTowards` | src/cm.rs:241-247 | the update's 16-bit cast never wraps and moves an entry towards the bit |
| `ProbabilityStages.Apm.Update` | src/cm.rs:241-247 | both entries move towards the bit, by one 2^rate-th of the distance rounded up, and no other changes |
| `ProbabilityStages.FinalMix` | src/cm.rs:405-409 | the predictor's probability is the two maps' mean weighted one to three, to the nearest, and within 0..4095, which is what the coder requires |
| `Snappy.Decompress` | src/resnappy.rs:260-318 | the content the format says, or None, for all streams |
| `Snappy.Sink.EmitLiteral` | src/resnappy.rs:111-121 | appends the literal element, of the shortest form (`Snappy.LiteralShortest`) |
| `Snappy.Sink.EmitCopy` | src/resnappy.rs:133-147 | copies of 64, 60 and the rest, none shorter than four |
| `Snappy.LiteralShortest` | src/resnappy.rs:111-121 | of all elements that say a literal the one written is the shortest, and the only one of its size |
| `Snappy.CopyShortest` | src/resnappy.rs:123-131 | the same of a copy of up to 64 bytes |
| `Snappy.CopyInPieces` | src/resnappy.rs:133-147 | a longer copy is cut into 64s and the rest, the last 64 giving four bytes to a rest of one, two or three |
| `Snappy.LiteralDecodes` | src/resnappy.rs:111-121 | the literal element appends its bytes |
| `Snappy.CopyDecodes` | src/resnappy.rs:133-147 | the copy elements together repeat the whole length, whatever its size |
| `Snappy.TableSizeFits` | src/resnappy.rs:83-91 | the table is the largest for a block longer than that, and otherwise the smallest power of two that holds the block, but not under 256 |
| `Snappy.Scan` | src/resnappy.rs:170-214 | the widening scan finds only candidates in front whose four bytes agree |
| `Snappy.SearchIsScan` | src/resnappy.rs:167-209 | the sixteen probes one by one only unroll the widening scan |
| `Snappy.SearchFirst` | src/resnappy.rs:167-214 | a search stops at the first hit of its probes, whose step is one and one more for every 32 bytes come, made while the next one stays within the limit |
| `Snappy.CopiesEnter` | src/resnappy.rs:215-233 | where copies end the last position matched and the next one are in the table |
| `Snappy.WriteCopies` | src/resnappy.rs:215-233 | the inner copy loop in place emits exactly the specified copies and leaves the specified table |
| `Snappy.CompressBlock` | src/resnappy.rs:159-239 | the nested loops in place write exactly the specified block |
| `Snappy.FragmentDecodes` | src/resnappy.rs:159-239 | from any state of the search the rest of the block decodes to the rest of the input |
| `Snappy.RoundTrip` | src/resnappy.rs:159-257 | for every input under 2^32 bytes and any hash, decompressing the compressed stream gives the input |
| `Snappy.Compress` | src/resnappy.rs:241-257 | the method writes that stream, and its content is the input |
| `Snappy.Reproduce` | src/resnappy.rs:322-330 | complete and exact: the first build that writes the stream again, and every stream a listed build wrote is reproduced |
| `Recipes.FieldsRead` | src/deflate.rs:1192-1299 | the fields of any well-formed segment of any tag read back, whatever follows in body, content and side |
| `Recipes.WrittenSegments` | src/deflate.rs:1192-1299 | a written container reads as exactly its segments, body, content and side used up together |
| `RecipeReader.Reader.Varint` | src/record.rs:465-493 | the cursor reads a 64-bit number and moves behind it, or the read fails: by the path for up to three bytes from one eight-byte load, else byte by byte, at most ten, the tenth cut to the word |
| `RecipeReader.Reader.Pieces` | src/deflate.rs:1168-1178 | the list of pieces of a chunked stream taken off body and side in step |
| `RecipeReader.Reader.Segment` | src/deflate.rs:1195-1297 | one segment taken off the three cursors in step, for every tag; a segment against the base object is refused unless its bytes lie in it |
| `RecipeReader.ReadSegments` | src/deflate.rs:1192-1299 | the loop returns what the specification reads, and None unless all three are used up |
| `Container.GatherIdat` | src/deflate.rs:452-473 | the first run of consecutive IDAT chunks, whole: their data joined, and the lengths and checks that put them back as the bytes they were |
| `Container.Builder.Flush` | src/deflate.rs:237-246 | the pending kept run is written as one segment, and what is written produces the input up to it |
| `Container.Builder.Segment` | src/deflate.rs:249-255 | after a segment that stands for a piece of the input, everything up to its end is produced |
| `Container.Builder.Lay` | src/deflate.rs:259-268 | the same for a piece opened on its own and laid in |
| `Container.Builder.Nest` | src/deflate.rs:273-281 | an inner container's four parts go behind the outer's |
| `Container.Builder.Nested` | src/deflate.rs:285-293 | an inner container, opened exactly when it is one, no JPEG, below the depth limit and opens, rebuilds its data |
| `Opening.ReflateOpens` | src/deflate.rs:353-384 | a stream reconstructed by the program itself, with a recipe of at most a quarter of it and a text within the limit, opens as its text, as the container it is, or as the JPEG that transcodes into less |
| `Opening.PreflateOpens` | src/deflate.rs:308-346 | what that declines opens in pieces or by preflate, with corrections of at most a quarter of it, and as what |
| `Opening.NothingOpens` | src/deflate.rs:300-426 | a stream stays closed exactly when every form declines it |
| `Opening.StoredOpens` | src/deflate.rs:430-446 | a stored entry opens exactly when it is a JPEG that transcodes into less or a container that opens |
| `Opening.PngOpens` | src/deflate.rs:452-509 | a picture opens exactly when its data is a zlib stream the engine opens to its last byte, with corrections of at most a quarter of it |
| `Container.Builder.Deflate` | src/deflate.rs:300-346 | a deflate stream becomes the segment `Opening.DeflateForm` says, with either engine, and one that does not open changes nothing; the invariant is kept |
| `Container.Builder.DeflateChunked` | src/deflate.rs:390-426 | the same for a stream taken apart in pieces, each with its corrections: opened exactly when they re-create it and come to at most a quarter of it |
| `Container.Builder.Open` | src/deflate.rs:353-384 | which of the three forms an opened stream takes, and that it produces its bytes |
| `Container.Builder.Stored` | src/deflate.rs:430-446 | a stored entry becomes the segment `Opening.StoredForm` says and keeps the invariant |
| `Container.Builder.TakePage` | src/deflate.rs:743-770 | a page is opened exactly when some compressor writes it again, as text or as a model of its values, and keeps the invariant |
| `Container.Builder.TakeFrame` | src/deflate.rs:697-719 | a zstd frame within the size limit is opened exactly when some compressor writes it again, as text or as a container of its own, and keeps the invariant |
| `Container.Builder.TakeTensor` | src/deflate.rs:645-660 | a tensor is opened exactly when it is of whole elements, as byte planes that produce it |
| `Container.Builder.TakeDelta` | src/deflate.rs:636-645 | a tensor is opened against the base object exactly when its counterpart lies in it, as the planes of their difference, which produce it with the same base |
| `Container.TakePlace` | src/deflate.rs:815-838 | one place of a container, whatever it holds, takes the builder where `Opening.Take` says; a place that overlaps what is written is passed over |
| `Container.Builder.Png` | src/deflate.rs:452-509 | a picture becomes the segment `Opening.PngForm` says, by either engine, and keeps the invariant |
| `Container.Builder.IntoParts` | src/deflate.rs:513-526 | parts exactly when something opened and they are within the limit, and they rebuild the input |
| `Container.OpenParts` | src/deflate.rs:585-612 | whatever places a scan lists and however deep they nest, the parts are those of the segments `Opening.OpenForm` gives, none when it gives none, and rebuild the input |
| `Closing.RebuildsCloses` | src/deflate.rs:1374-1387 | closing parts that rebuild some data gives the data |
| `Container.OpenObject` | src/deflate.rs:574-583 | closing what opening built, against the same base object or none, returns the input byte for byte; recipe and text are those of the segments of `Opening.OpenForm` |
| `Planes.SplitAt` | src/safetensors.rs:198-215 | byte k of the planes is byte k / n of element k % n, n being the elements |
| `Planes.JoinSplit` | src/safetensors.rs:198-247 | joining the planes of a tensor gives its whole elements back, for every width |
| `Planes.SplitPlanes` | src/safetensors.rs:198-215 | the loop that spreads the elements writes every byte to its plane, for every length |
| `Planes.JoinPlanes` | src/safetensors.rs:233-247 | the loop that gathers them, and the widths and lengths it refuses |
| `Bitwise.XorBytesTwice` | src/deflate.rs:1320-1327 | the difference to the base applied again gives the bytes back |
| `SnappyPages.SnappyInverse` | src/resnappy.rs:322-330 | the page codec filled with the search for the Snappy build and its compressor is inverse, which is what the container's results require of a codec |
| `SnappyPages.WrittenPagesOpen` | src/resnappy.rs:322-330 | that codec opens every page a listed build wrote, with its content |
| `SnappyPages.ReproducePage` | src/resnappy.rs:322-330 | the search computes that codec |
| `FarMatches.Forward` | src/ldm.rs:397-461 | the forward extension stops at the first difference or the input's end |
| `FarMatches.Backward` | src/ldm.rs:397-461 | the backward extension stops at the first difference or at what is covered |
| `FarMatches.EntryNames` | src/ldm.rs:397-461 | a slot entry names its position for any position less than a window later, and keeps its check bits |
| `FarMatches.Find` | src/ldm.rs:349-466 | every match is at least 32 long, equals the bytes its offset back, has its source inside the input, cannot be extended, and starts at or after the end of the one before |
| `FarMatches.GenuineOrdered` | src/ldm.rs:397-461 | so any two matches of a list do not overlap |
| `FarMatches.Cursor.At` | src/ldm.rs:490-520 | for queries that never go back the cursor gives what a linear search of the list gives |
| `FarMatches.CoveringAt` | src/ldm.rs:508-520 | the linear search names the first match over the position, the bytes left in it and its offset |
| `Crc.PolyReflected` | src/format.rs:505-508 | the constant is the reflected Castagnoli polynomial of CRC-32C |
| `Crc.KnownAnswers` | src/format.rs:613-631 | the CRCs of no bytes and of one byte of ones |
| `Crc.StepsLinear` | src/format.rs:505-511 | bit steps are linear over GF(2) |
| `Crc.RegisterSplits` | src/format.rs:530-532 | what the register held before some bytes only adds its shift over them |
| `Crc.CrcTable` | src/format.rs:613-631 | the byte-table loop computes the bit-by-bit CRC |
| `Crc.Gf2Times` | src/format.rs:487-497 | the loop over set bits is the matrix product |
| `Crc.TimesIs` | src/format.rs:487-497 | the matrix of n steps applied to a register is n steps |
| `Crc.Compose` | src/format.rs:499-501 | composing matrices adds their steps |
| `Crc.ShiftMatrices` | src/format.rs:503-527 | repeated squaring reaches one, two and three lanes of 1024 bytes |
| `Crc.ApplyIs` | src/format.rs:483-485 | four byte tables apply the matrix |
| `Crc.JoinIs` | src/format.rs:530-532 | joining three lanes' registers is taking the lanes in one after another |
| `Crc.CrcStriped` | src/format.rs:536-564 | for data of any length the striped form equals the CRC |
| `Checksums.KnownAnswers` | src/format.rs:651-659 | the checksums of no bytes and of two |
| `Checksums.Scalar` | src/format.rs:651-659 | the wrapping loop computes the two sums modulo 2^32 |
| `Checksums.BlockSums` | src/x86_checksum.rs:26-54 | what a block adds to both sums, by its plain and its weighted sum |
| `Checksums.Avx2` | src/x86_checksum.rs:10-63 | the 32-byte block form equals the checksum for all data; the saturating multiply-add never saturates |
| `Checksums.Closed` | src/neon_checksum.rs:6-13 | the closed form of both sums over whole blocks |
| `Checksums.Neon` | src/neon_checksum.rs:6-57 | the lane form equals the checksum unless the block count is a positive multiple of 2^32, when it is the checksum of the tail alone |
| `Checksums.ForgottenBlocks` | src/neon_checksum.rs:33-51 | an input of 2^32 blocks on which the two differ |
| `Rans.Normalize` | examples/rans_speed.rs:31-58 | ends, with frequencies that sum to exactly 4096 and every used symbol at least one, and their running sums; each symbol first gets its share of 4096 rounded down, or one; what that lacks goes to the first largest, what it has too much is cut off the top level by level |
| `Rans.LevelledOnce` | examples/rans_speed.rs:42-53 | only one way of cutting the top leaves a given sum, so the frequencies are determined |
| `Rans.Histogram` | examples/rans_speed.rs:121-122 | every entry is how often its symbol occurs |
| `Rans.PutInverts` | examples/rans_speed.rs:61-98 | the state's slot names the symbol just put, and the state before follows |
| `Rans.PutStays` | examples/rans_speed.rs:61-77 | from a renormalised state the step stays in [2^23, 2^31) |
| `Rans.EncodeStream` | examples/rans_speed.rs:61-77 | the backward loop writes the stream of the chosen symbols |
| `Rans.Decoder.Decode` | examples/rans_speed.rs:88-97 | returns the next symbol and refills the state to what the encoder had |
| `Rans.DecodeAll` | examples/rans_speed.rs:146-162 | any number of decoders in turn return the symbols in order, and each ends with its bytes used up, in the state its encoder started from |
| `Rans.RoundTrip` | examples/rans_speed.rs:31-164 | any symbols, any number of coders: histogram, normalise, encode, decode gives the symbols |
| `FixedLog.Log2Q16` | src/fixlog.rs:7-25 | the squaring loop computes the specified logarithm |
| `FixedLog.LogBrackets` | src/fixlog.rs:7-25 | for every 64-bit v > 0, r satisfies 2^r <= v^65536 < 2^(r+2) |
| `FixedLog.LogMonotone` | src/fixlog.rs:7-25 | a larger value never has a smaller logarithm |
| `FixedLog.LogOfPower` | src/fixlog.rs:7-25 | powers of two come out exact |
| `FixedLog.CostQ16` | src/fixlog.rs:30-32 | the cost is the exact difference for c <= t, so it never saturates there, and zero from c = t on |
| `Dictionary.Slide` | src/dict.rs:262-276 | one step right keeps the sum the worth of the window: the counts of its distinct strings |
| `Dictionary.BestWindow` | src/dict.rs:253-281 | the leftmost window of the largest worth in the epoch, and all counters zero again at its end |
| `Dictionary.TakeEpoch` | src/dict.rs:251-287 | the epoch's pick, exactly when some window is worth anything, and its strings' counts zeroed, no others |
| `Dictionary.SelectContent` | src/dict.rs:227-296 | every epoch's pick in turn under the counts the earlier picks left; the content is the first of them the budget holds, last to first |
| `Varints.VarintDecodes` | src/format.rs:28-55 | a 32-bit number's varint reads back with its length, whatever follows |
| `Varints.LongVarintDecodes` | src/record.rs:455-493 | the same for the recipe's 64-bit numbers, in at most ten bytes |

## Left out

- MatchFinder.FindMatches: does not say which matches are found, because how well a parse compresses is a matter of tuning; hashes are any functions of the words they read, so a finder that finds less would still be right.
- MatchFinder.FindMatchesFast: as above; the search step's counter is unbounded, where the source's is 32 bits wide.
- FarMatches.Find: does not say that a repeat is found, for the same reason; the anchors of a chunk are any positions in it, so the vector scans that gather them are not modelled.
- VectorPrepass.Run: does not say when it returns nothing, because the decoder then takes the careful path, which decodes everything.
- VectorDecoder.Decompress: minimum matches up to 241 only, because the source adds the bias in byte lanes; the source uses 5, 7 and 10.
- ProbabilityStages.FinalMix: the mixing network, the context models and the state table of src/cm.rs enter only as the mixed logit's probability; the coder's round trip takes any predictor.
- Container.OpenObject: scanners for gzip, zip, png, pdf, tar, zlib, parquet, zstd and safetensors are any list of places; given the list, what opens is exact. Byte strings are shorter than 2^63.
- Container.Builder.DeflateChunked: that the pieces of a parsed stream put its text together is taken from the codec; that they re-create the stream is checked by the program and needs no assumption.
- Deflate, preflate, JPEG, zstd and parquet codecs are abstract, each with an inverse; the Snappy page codec is the one filled in.
- HuffmanDecoder.DecodeWith: for a code that leaves indexes of the table without a symbol, a corrupt stream that runs into its end, and bytes other than zeros behind it, says nothing of the verdict, which then depends on how often those bytes were loaded.
- Block headers, flags, checksums of blocks and the payload's byte layout in src/lib.rs and src/format.rs; a block here is its streams and its minimum match.
- The entropy stages of the versions after 6, records, dictionaries' tables and pack envelopes of src/lib.rs.
- The MSB-first writer, reader and table at the end of src/huffman.rs, which repeat the canonical code in the other bit order.
- The one-stream decoder loop and the eight-stream loop of src/huff8.rs are one loop over the number of streams; four codes are put together in both.
- Streams of a section are written into buffers of their own and then joined, where the source appends to one vector and patches its sizes.
- A section whose sizes do not fit their fields is refused, where the source panics.
- Counts of symbols are unbounded, where the source sums 64-bit counts without a check; so are the dictionary's 32-bit and 16-bit counters, of which the latter cannot overflow in a window of 1017 strings.
- Sorting of symbols and leaves is insertion into a sorted sequence, where the source calls the library's sort with the same key.
- Comparing eight bytes and counting the equal ones by trailing zeros is one function giving the first difference.
- The lanes of the escape bit masks in the vector prepass are walked in order, where the source takes them from a mask lowest bit first.
- Snappy's varint of the length takes five bytes at most, and a literal's or the search's plain text must be shorter than 2^32 bytes, as in the format; the search over builds refuses longer content.
- Table-driven logarithms and costs of src/fixlog.rs other than `log2_q16` and `cost_q16`.
- Prefetching, processor dispatch, thread counts, environment overrides, speed and compression ratio.
