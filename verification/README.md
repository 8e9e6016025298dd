# Verified models of the audio decoders

The player ships four decoding engines whose fast, in-place code has to agree with simple mathematics. This project
models them in Dafny and proves that they do. The methods follow the C code they model, branch by branch; where one does
not, or where a contract says less than the code does, "Left out" says so. The theorems are for all inputs, all runs, or
every reachable state.

## What is modelled

**DEFLATE (tinfl).** `DeflateCodes` defines canonical Huffman codes as RFC 1951, section 3.2.2 does, as intervals of
16-bit words. `TinflBuild` fills the ten-bit lookup and the overflow tree of packed negative indices; `TinflTrie` and
`TinflTables` keep a ghost trie beside the arrays and prove that the tables decode every code, that no index leaves the
slot array, and that a leaf is never taken for an empty slot although symbol 0 is stored as 0. `TinflReader` is the bit
buffer with its refills and the push-back, `TinflHuff` the two ways of decoding a symbol, `TinflLengths` the run-length
coded code sizes (section 3.2.7) and `TinflTokens` literals and matches (section 3.2.5), both as coroutines that may stop
for input anywhere. `TinflWindow` is the wrapping 32 KB window that is flushed to a callback, `TinflAdler` the checksum.
`TinflBlocks` says what a stream of blocks is, sound, wrong or cut off; `TinflInflate` is the decompressor that reads such a
stream and writes what it reads at once, ending a call, giving bytes back and starting the next one whenever the window is
full; `TinflZlib` adds header, trailer and status. `TinflParse` shows that every input is such a stream, and `TinflEncode`
that every token sequence, and so every byte string, has a zlib stream that decompresses to it: in a fixed block, in a
dynamic block with any two codes, announced in any way, and in a stored block.

**Vorbis and Ogg (stb_vorbis).** `VorbisCodewords` states the Vorbis I assignment of codewords (section 3.2.1: each entry
takes the lowest-valued free codeword) and proves the loop invariant that the C source calls "isn't totally trivial to
prove": assigned codewords and free nodes tile the code space, with at most one free node per depth, in decreasing order.
`VorbisCodebook` is `compute_codewords`, `VorbisTables` the sorted list, `VorbisSetup` the table of short codes and the
construction of a whole codebook, `VorbisDecode` the three ways of decoding a symbol, `VorbisReverse` the bit reversal,
`VorbisPacket` the refill of the bit buffer across segments and pages. `VorbisFloor` is floor 1: amplitudes, lines and the
curve; `VorbisFloorSetup` prepares it from the points in the header. `OggPackets` is the page and segment reader and the
lookahead of the push API.

**Monkey's Audio.** `ApeRange` and `ApeValues` are the range decoder and the values coded with it, `ApeFilter` the adaptive
FIR stage with its two histories in one sliding array, `ApePredictor` the predictor with its delay lines on one sliding
tape (stereo and mono), `ApeLossless` the proof that the predictor loses nothing, `ApeStereo` the recombination of the
channels. `ApeRice`, `ApeFilterLearning` and `ApePredictorLearning`, with `ApeLearning`, say what the adaptation is for: the
parameter follows the magnitude of the values, and every residual turns the coefficients in its direction. `ApeFrame` puts these stages in a row; `ApeFilterBank` and `ApeFrameDecoder` are the objects that decode a physical
frame from its bytes, and `FrameOutcome` is the function of those bytes that they compute whatever was decoded before.
`ApePlayback` is reading and seeking by PCM frames, and `ApeTrack` ties the two together for whole files. `Streams` is the
small theory of invertible machines that filter and predictor share, `ApeArithmetic` their 32- and 64-bit arithmetic.

**ASF and DSD.** `AsfLayout` says how an encoder may lay media objects out over packets; `AsfDemux` is the demuxer, proved to
give back exactly those objects. `DsdFilter` is the ring-buffer decimator, proved to be plain convolution.

`Bits`, `BitStream`, `Bytes`, `PrefixTable` and `Products` hold the arithmetic that several of these need. Words are natural
numbers with shifts and masks defined by halving and doubling; wrap-around is written out wherever the source relies on it.

## What the proofs found

- `stb_vorbis.c` reads the first two floor amplitudes with `ilog(range) - 1` bits where Vorbis I, section 7.2.3 asks for
  `ilog(range - 1)`. `VorbisFloor.AmplitudeBits` proves that the two agree exactly when the multiplier is not 3 (range 86).
- A dense codebook entry from index 32767 on with a codeword of at most ten bits cannot be decoded when the book also has
  longer codewords: `VorbisDecode.Codebook.DecodeRaw` decodes an entry if and only if it is `Findable`, and otherwise
  returns something else. `VorbisSetup.UnfindableEntry` builds such a book.
- Naming the entry of a sparse book reads `sorted_values[-1]` when no codeword was found. There is a slot for that, but no
  table at all when the book has no used entry: the access is inside the table exactly unless the book is sparse and empty
  (`VorbisDecode.Codebook.Decode`), and `VorbisSetup.EmptySparseBook` is one that the setup accepts.
- The push-API lookahead accepts the tail of a packet whose beginning was lost, which the reader then refuses, when a stream
  is joined at a page flagged as continued (`OggPackets.JoinedStreamFails`). In a page without segments the reader takes one
  all the same, of the length that the page before has left in the first slot; the lookahead steps over such a page
  (`OggPackets.EmptyPageMisread`). Where every page has a segment, lookahead and reader agree exactly unless the stream is
  joined like that, and in any case the reader takes what `Taken` says (`OggPackets.Reader.ReadIfPresent`).
- Seeking in a Monkey's Audio file divides by the blocks per frame and cuts the quotient to 32 bits. A seek that succeeds
  lands on the PCM frame asked for exactly if `Track.Reaches` it: with no blocks per frame, only PCM frame 0 or a file of
  one physical frame; otherwise unless the quotient needs more than 32 bits and what is left of it names an earlier physical
  frame than the last (`ApePlayback.Reader.Seek`, with `ApePlayback.SeekMisses` and `ApePlayback.SeekWraps`).
- A seek that fails keeps its place, but what was decoded of the bad physical frame lies over the carry buffer. What is read
  afterwards is exactly the track with these values in place of its own; a sample is unchanged if and only if none was
  written over it or the same one was (`ApePlayback.Track.OverwrittenSample`, with `ApePlayback.SpoiltRead`).
- The sample buffers of the Monkey's Audio decoder hold two times the blocks per frame, rounded up to eight in 32 bits. They
  have room for every physical frame exactly if the last one, whose size the header gives apart, is no longer than that (twice
  that, for one channel), and the rounding does not wrap or there is only this one frame (`ApeTrack.FramesFit`, with
  `ApeTrack.HeadersThatDoNotFit`).
- The ASF demuxer tests in 32 bits whether a fragment fits its buffer. A fragment that passes the test stays inside the
  buffer exactly if the sum does not wrap or the file ends first (`AsfDemux.Demux.AcceptedInside`,
  `AsfDemux.Demux.OversizeAccepted`).
- The running average of the adaptive filter of Monkey's Audio moves towards the magnitude of every sample exactly unless the
  loudest negative sample comes after silence, where the difference overflows (`ApeFilterLearning.AverageFollows`).
- DEFLATE codes of a single symbol leave bits that no code begins. They are not refused: the tables take them for symbol 0,
  mostly without using any bits up (`TinflTables.GapDecodes`).

## Model

| member | source | states |
|---|---|---|
| DeflateCodes.CodeOrder | tinfl/miniz_tinfl.c:343-351 | The codes that `next_code` yields obey RFC 1951's two rules: codes of one size are consecutive in symbol order, shorter codes come first, and no code begins with another |
| DeflateCodes.BeginsUnique | tinfl/miniz_tinfl.c:161-173 | At most one symbol's code begins any bit string |
| DeflateCodes.CompleteBegins | tinfl/miniz_tinfl.c:343-351 | When `total` is 65536, some symbol's code begins every bit string |
| TinflTrie.CompleteBound | tinfl/miniz_tinfl.c:378-392 | The prefixes of ten or more bits that are inner nodes of a complete code are fewer than its symbols, whatever order they are entered in |
| TinflBuild.RoomForNode | tinfl/miniz_tinfl.c:378-392 | When a symbol needs a new tree node there are two free slots for it in an array of twice as many slots as symbols |
| TinflBuild.InnerCell | tinfl/miniz_tinfl.c:378-389 | On a long code's way through the tree, the slot read is empty or refers to the node there; it never holds a leaf, although symbol 0's leaf is stored as the empty value 0 |
| TinflTables.AddLeafOk | tinfl/miniz_tinfl.c:390-392 | The place of a code's leaf is no node, and entering it keeps every code entered before |
| TinflBuild.Tables.InsertLong | tinfl/miniz_tinfl.c:372-392 | Entering a code longer than ten bits through the tree keeps every code entered before it |
| TinflBuild.Tables.InsertShort | tinfl/miniz_tinfl.c:361-370 | Entering a code of at most ten bits fills exactly the cells that begin with it and keeps the others |
| TinflBuild.ReverseCode | tinfl/miniz_tinfl.c:358-360 | The loop reverses the code's bits |
| TinflBuild.FirstCodes | tinfl/miniz_tinfl.c:340-351 | `next_code`, `total` and `used_syms` are the first code of each size, the fill of the code space and the number of codes |
| TinflBuild.Tables.Build | tinfl/miniz_tinfl.c:340-392 | Fails exactly when the code is neither complete nor of at most one symbol; otherwise the tables decode every bit string that begins with a code to that symbol and its size, and any other to symbol 0 |
| TinflTables.TrieDecodes | tinfl/miniz_tinfl.c:161-173 | Arrays that hold the trie decode all of its symbols: lookup cell, then tree walk |
| TinflTables.WalkReaches | tinfl/miniz_tinfl.c:166-173 | From any inner node on a code's path the tree walk ends at the code's leaf after exactly its size |
| TinflTables.GapDecodes | tinfl/miniz_tinfl.c:161-173 | Bits that no code begins are taken for symbol 0, and none of them are used up unless they leave the only code behind its first ten bits |
| TinflReader.Reader.NeedBits | tinfl/miniz_tinfl.c:76-84 | A refill changes neither the pending bit stream nor how much of it is available, fails exactly when this call's input is too short, and never needs more than the 32 bits of the buffer |
| TinflReader.Reader.TakeByte | tinfl/miniz_tinfl.c:76-84 | With at most 24 bits buffered, one more byte fits in 32 bits and leaves the pending stream unchanged |
| TinflReader.Reader.BufferIsWord | tinfl/miniz_tinfl.c:76-84 | In every valid state the bit buffer is a 32-bit word |
| TinflReader.Reader.GetBits | tinfl/miniz_tinfl.c:95-104 | Returns the next n bits of the stream and drops exactly those, or changes nothing when the input does not hold them |
| TinflReader.Reader.PushBack | tinfl/miniz_tinfl.c:633-640 | Giving whole bytes back to the caller leaves the pending stream unchanged |
| TinflReader.Reader.NextCall | tinfl/miniz_tinfl.c:203-224 | However the input is cut into calls, the pending stream is the same |
| TinflHuff.CellDecides | tinfl/miniz_tinfl.c:112-124 | What a lookup cell indexed by a partly filled buffer says about whether the stream's next symbol is complete |
| TinflHuff.BitbufFill | tinfl/miniz_tinfl.c:112-135 | Near the end of the input, the fill reads no byte beyond the next symbol, for every accepted code, and waits exactly when the input does not hold the symbol |
| TinflHuff.HuffDecode | tinfl/miniz_tinfl.c:143-175 | Decodes the symbol that begins the stream and drops exactly its code, or waits with the stream unchanged |
| TinflHuff.HuffDecodeFast | tinfl/miniz_tinfl.c:462-500 | With two bytes in hand, the refill of sixteen bits gives the same symbol as the careful form |
| TinflLengths.LengthReader.Run | tinfl/miniz_tinfl.c:394-425 | For any run-length items the stream spells and any cut of the input: the code sizes come out as the items say if there are exactly as many as announced, and reading fails when there are more or when the first item repeats nothing; no run leaves the 457-byte buffer |
| TinflLengths.LengthReader.FillRun | tinfl/miniz_tinfl.c:415-418 | A run extends the sizes by its value repeated, within the buffer |
| TinflEncode.RunItem | tinfl/miniz_tinfl.c:409-418 | Any run of 3 to 6 equal sizes, of 3 to 10 zeros or of 11 to 138 zeros is one item, with the symbol and the extra bits that RFC 1951, section 3.2.7 gives it |
| TinflTokens.LengthTable | tinfl/miniz_tinfl.c:189-190 | The length table's entries are the consecutive ranges of RFC 1951, section 3.2.5 |
| TinflTokens.DistanceTable | tinfl/miniz_tinfl.c:191-192 | The distance table's entries are the consecutive ranges of RFC 1951, section 3.2.5 |
| TinflTokens.SpellMatch | tinfl/miniz_tinfl.c:189-192 | Every length from 3 to 258 and distance up to 32768 has a symbol pair with extra bits |
| TinflTokens.TokenReader.StepFast | tinfl/miniz_tinfl.c:444-511 | The fast loop, up to two symbols per round, reads the same tokens as the careful one |
| TinflTokens.TokenReader.Run | tinfl/miniz_tinfl.c:427-533 | For any tokens the stream spells, however the input is cut and whichever form reads a symbol: at the end of the block exactly these tokens have been read and the stream stands right behind the block |
| TinflTokens.TokenReader.RunChunks | tinfl/miniz_tinfl.c:203-224 | Over any list of input buffers, whether the block ends, its tokens and where the stream then stands do not depend on where the buffers are cut |
| TinflWindow.Inflater.CopyTriples | tinfl/miniz_tinfl.c:583-597 | The three-bytes-at-a-time copy, overlapping or not, gives the match over the unbounded history |
| TinflWindow.Inflater.StartMatch | tinfl/miniz_tinfl.c:541-560 | A match that wraps is copied byte by byte and may stop when the window is full, leaving exactly the rest |
| TinflWindow.Inflater.Flush | tinfl/miniz_tinfl.c:741-752 | What a call has written goes to the callback in order, and the next call goes on behind it or at the front of the window |
| TinflAdler.AdlerConcat | tinfl/miniz_tinfl.c:649-671 | Carrying the sums from call to call gives the checksum of the concatenated output |
| TinflAdler.BlockFits | tinfl/miniz_tinfl.c:654-669 | Unreduced sums over up to 5552 bytes fit in 32 bits, and over 5553 they may not |
| TinflAdler.AddStandsFor | tinfl/miniz_tinfl.c:659-666 | Adding a byte to unreduced sums does not overflow and stands for the sums reduced at every byte |
| TinflAdler.Checksum.Update | tinfl/miniz_tinfl.c:649-671 | The deferred, unrolled loop computes the checksum of RFC 1950, section 8.2 |
| TinflAdler.Checksum.FinishCall | tinfl/miniz_tinfl.c:649-674 | After any calls, the checksum is that of all output of those that did not fail, and a finished zlib stream with another checksum is reported |
| TinflZlib.AbcSum | tinfl/miniz_tinfl.c:649-674 | The checksum of "abc" is 0x024d0127 |
| TinflBlocks.FixedUsable | tinfl/miniz_tinfl.c:295-310 | The fixed codes are complete |
| TinflBlocks.ReadLength | tinfl/miniz_tinfl.c:249-260 | After alignment, a stored block's length is read, checked against its complement, or cut off |
| TinflBlocks.ReadCodeSizes | tinfl/miniz_tinfl.c:318-324 | The sizes of the code length codes are read from where `Position` says that each is written, and are zero where nothing is |
| TinflBlocks.WrittenRead | tinfl/miniz_tinfl.c:318-324 | For any sizes written in the order of RFC 1951, section 3.2.7, as many as there are: those are the sizes read, and zeros for the others |
| TinflBlocks.FixedLitCode | tinfl/miniz_tinfl.c:295-310 | The codes of the fixed literal/length symbols are those listed in RFC 1951, section 3.2.6 |
| TinflBlocks.FixedDistCode | tinfl/miniz_tinfl.c:295-310 | And those of the distance symbols |
| TinflInflate.Decompressor.EndCall | tinfl/miniz_tinfl.c:629-640 | Ending a call when the window is full, giving buffered bytes back and starting the next one changes neither the stream nor what the output is going to be, and the checksum covers what was handed over |
| TinflInflate.Decompressor.Write | tinfl/miniz_tinfl.c:535-597 | A literal or match is written as the LZ77 expansion over the unbounded history, over as many calls as it takes |
| TinflInflate.Decompressor.ReadTokens | tinfl/miniz_tinfl.c:427-599 | A compressed block, read and written token by token, extends the output by exactly the tokens it spells, or by those it holds whole if it is cut off |
| TinflInflate.Decompressor.ReadBlock | tinfl/miniz_tinfl.c:247-426 | A block of any kind is recognised as sound, wrong or cut off, and what it stands for is written behind the output so far |
| TinflInflate.Decompressor.ReadStream | tinfl/miniz_tinfl.c:243-600 | The same for a whole stream of blocks |
| TinflZlib.DecompressMemToCallback | tinfl/miniz_tinfl.c:729-757 | Whatever blocks the input is a stream of, the callback gets the expansion of exactly their tokens over a history that is zero before its start, the status tells sound streams, wrong ones, cut-off ones and wrong checksums apart, and the number of input bytes used up is exactly what a sound stream takes, or all of them if it is cut off |
| TinflZlib.HeaderAccepted | tinfl/miniz_tinfl.c:232-239 | Every header without a dictionary that RFC 1950, section 2.2 allows is accepted |
| TinflZlib.AcceptedHeader | tinfl/miniz_tinfl.c:232-239 | And no other is |
| TinflZlib.AlignInput | tinfl/miniz_tinfl.c:603-611 | Behind the last block, aligning and giving bytes back leaves no bits in the buffer |
| TinflZlib.ReadTrailer | tinfl/miniz_tinfl.c:603-625 | The checksum is read highest byte first, and the reader then stands right behind it with no bits buffered, or the input is used up |
| TinflParse.InputParses | tinfl/miniz_tinfl.c:243-600 | Every input is a stream of blocks |
| TinflParse.CompleteKnown | tinfl/miniz_tinfl.c:161-173 | Only a block with a code of at most one symbol comes to bits that no code begins |
| TinflEncode.TokensRoundTrip | tinfl/miniz_tinfl.c:729-757 | Any tokens have a zlib stream that decompresses to their expansion with status DONE |
| TinflEncode.BytesRoundTrip | tinfl/miniz_tinfl.c:729-757 | So does any byte string |
| TinflEncode.DynamicRoundTrip | tinfl/miniz_tinfl.c:312-426 | Any tokens, coded with any two usable codes that any items announce in any code for code sizes, have a zlib stream of one dynamic block that decompresses to their expansion with status DONE |
| TinflEncode.AnnouncementExists | tinfl/miniz_tinfl.c:312-425 | Any two codes can be announced |
| TinflEncode.StoredRoundTrip | tinfl/miniz_tinfl.c:247-294 | Up to 65535 bytes, written out byte by byte as a stored block, decompress to themselves with status DONE |
| VorbisCodewords.SpecAssignmentUnique | stb_vorbis/stb_vorbis.c:1086-1130 | The assignment that Vorbis I, section 3.2.1 prescribes is unique |
| VorbisCodewords.PrefixFree | stb_vorbis/stb_vorbis.c:1107-1129 | No codeword of the assignment begins another |
| VorbisCodewords.SearchFindsLowest | stb_vorbis/stb_vorbis.c:1110-1117 | The deepest available node no longer than the entry is the lowest-valued free codeword: the invariant that the source leaves unproved |
| VorbisCodewords.SplitTiles | stb_vorbis/stb_vorbis.c:1118-1128 | Splitting the node taken keeps codewords and free nodes tiling the code space |
| VorbisCodewords.InvTake | stb_vorbis/stb_vorbis.c:1107-1129 | A round of the loop keeps the whole invariant: one free node per depth in decreasing order, tiling, and the Kraft sum |
| VorbisCodewords.SearchFailure | stb_vorbis/stb_vorbis.c:1115-1117 | When no node is available the Kraft sum exceeds one |
| VorbisCodewords.CompleteCovers | stb_vorbis/stb_vorbis.c:1086-1130 | When the Kraft sum is one, every word begins with some entry's codeword |
| VorbisCodebook.ComputeCodewords | stb_vorbis/stb_vorbis.c:1086-1130 | Returns false exactly when the Kraft sum exceeds one; otherwise stores the prescribed codeword of every entry, bit-reversed or compacted as the book's form asks |
| VorbisCodebook.PlaceNext | stb_vorbis/stb_vorbis.c:1107-1129 | One entry is placed at the lowest-valued free codeword and the leaves stay those of the invariant |
| VorbisReverse.ReversesBits | stb_vorbis/stb_vorbis.c:1010-1017 | The exchanges of blocks move bit i to bit 31 - i |
| VorbisReverse.IsRev | stb_vorbis/stb_vorbis.c:1010-1017 | As a number, the result is the reversal that the tables are specified with |
| VorbisTables.SortIncreasing | stb_vorbis/stb_vorbis.c:1197 | Sorting distinct words makes them strictly increasing |
| VorbisTables.BinarySearch | stb_vorbis/stb_vorbis.c:1672-1681 | Finds the last sorted word that is not above the code |
| VorbisTables.SearchFindsMatch | stb_vorbis/stb_vorbis.c:1671-1690 | If a listed codeword begins the next bits, the search position is that codeword's |
| VorbisTables.CompleteMatches | stb_vorbis/stb_vorbis.c:1086-1130 | In a book with Kraft sum one, some entry's codeword begins any bits |
| VorbisTables.ComputeSortedHuffman | stb_vorbis/stb_vorbis.c:1179-1229 | The sorted list holds every listed codeword with its own entry (and its length, in a sparse book) |
| VorbisSetup.ComputeAcceleratedHuffman | stb_vorbis/stb_vorbis.c:1134-1158 | A cell of the ten-bit table is an entry if and only if that entry's short codeword begins the cell's bits |
| VorbisSetup.BuildCodebook | stb_vorbis/stb_vorbis.c:3773-3842 | Building fails exactly when the lengths are over-subscribed; otherwise all tables describe the prescribed codewords, sparse books with many used entries are stored dense, and a book is sparse and empty exactly if four or more entries are announced and none is used |
| VorbisSetup.EmptySparseBook | stb_vorbis/stb_vorbis.c:3824-3835 | A book of four unused entries is one that has no table of values |
| VorbisSetup.UnfindableEntry | stb_vorbis/stb_vorbis.c:1138-1147 | A book that the setup accepts has an entry that no lookup can find |
| VorbisDecode.PacketBits.PrepHuffman | stb_vorbis/stb_vorbis.c:1634-1647 | The refill keeps the packet's remaining bits and buffers as many whole bytes as fit |
| VorbisPacket.PrepHuffman | stb_vorbis/stb_vorbis.c:1634-1647 | The same with the bytes taken from the segment reader, across segments and pages |
| VorbisDecode.Codebook.SearchSymbol | stb_vorbis/stb_vorbis.c:1666-1690 | The binary search gives the entry whose codeword begins the bits, in sparse and dense books |
| VorbisDecode.Codebook.ScanSymbol | stb_vorbis/stb_vorbis.c:1701-1713 | The linear scan gives the only entry whose codeword begins the bits, or shows that there is none |
| VorbisDecode.Codebook.DecodeRaw | stb_vorbis/stb_vorbis.c:1656-1729 | Whichever of the three lookups answers: the entry whose codeword begins the bits, using up exactly that codeword, or end of packet when it is cut off; fails exactly for entries that are not findable |
| VorbisDecode.Codebook.Decode | stb_vorbis/stb_vorbis.c:1754-1756 | The same for entry numbers; in a sparse book they come from a table access that is inside the table exactly unless the book has no used entry |
| VorbisFloor.PredictBetween | stb_vorbis/stb_vorbis.c:1935-1943 | A predicted point lies between the ends of its line |
| VorbisFloor.LineNext | stb_vorbis/stb_vorbis.c:2070-2078 | One step of the error accumulation gives the value that division gives |
| VorbisFloor.DrawLine | stb_vorbis/stb_vorbis.c:2034-2081 | For any slope and sign, every bin of the line is scaled once by the gain at `predict_point`'s value, and no other bin changes |
| VorbisFloor.AmplitudeBits | stb_vorbis/stb_vorbis.c:3209-3213 | The number of bits read for the first amplitudes is the standard's exactly when the multiplier is not 3, and never gives a value out of range |
| VorbisFloor.UnwrapPermutes | stb_vorbis/stb_vorbis.c:3245-3262 | For each prediction in range the amplitude unwrap is a permutation of the range |
| VorbisFloor.UnwrapOrders | stb_vorbis/stb_vorbis.c:3245-3262 | Coded values list the amplitudes by their distance from the prediction, of two equally far ones the lower first |
| VorbisFloor.Floor1.FinalInRange | stb_vorbis/stb_vorbis.c:3239-3269 | In-range packet values give in-range predictions and amplitudes |
| VorbisFloor.Floor1.AmplitudesBijective | stb_vorbis/stb_vorbis.c:3239-3269 | Vectors of packet values in range and vectors of amplitudes in range correspond one to one |
| VorbisFloor.Floor1.MarkedPoints | stb_vorbis/stb_vorbis.c:3238-3269 | The line goes through the first two points, those with a coded value other than 0 and those that help to predict such a one, and through no others |
| VorbisFloor.Neighbors | stb_vorbis/stb_vorbis.c:1303-1312 | The neighbours are the nearest earlier points below and above |
| VorbisFloorSetup.SortPoints | stb_vorbis/stb_vorbis.c:3987-3997 | Two points alike are refused, and only these; otherwise the indices come out in strictly increasing order of x, from the first point to the second |
| VorbisFloorSetup.Prepare | stb_vorbis/stb_vorbis.c:3978-4004 | A floor is refused exactly if two of its points are alike; otherwise order and neighbours are those that decoding relies on |
| VorbisFloor.UnwrapAmplitudes | stb_vorbis/stb_vorbis.c:3238-3281 | Every point ends with its amplitude, or -1 exactly if the line does not go through it |
| VorbisFloor.AmplitudesMakeCurve | stb_vorbis/stb_vorbis.c:3238-3281 | The result can be drawn: the first point is on the line and all heights are in range |
| VorbisFloor.DoFloor | stb_vorbis/stb_vorbis.c:3080-3106 | Every bin below n/2 is scaled exactly once: between two neighbouring marked points by the gain on the line between their amplitudes times the multiplier, behind the last one by its amplitude times the multiplier |
| VorbisFloor.HeightBetween | stb_vorbis/stb_vorbis.c:3082-3098 | Between two neighbouring marked points the curve is the line between their amplitudes times the multiplier |
| VorbisFloor.HeightBehind | stb_vorbis/stb_vorbis.c:3099-3104 | Behind the last marked point it stays at that point's amplitude times the multiplier |
| VorbisFloor.BetweenEnds | stb_vorbis/stb_vorbis.c:1935-1943 | At both its points the line has exactly their heights |
| VorbisFloor.SomewhereOnLine | stb_vorbis/stb_vorbis.c:3082-3104 | Every bin lies between two neighbouring marked points or behind the last |
| OggPackets.Reader.StartPage | stb_vorbis/stb_vorbis.c:1431-1501 | Reading a page header raises neither end of file nor an error exactly when a complete header of version 0 is there |
| OggPackets.Reader.NextSegment | stb_vorbis/stb_vorbis.c:1539-1558 | Taking the next segment keeps what is left of the packet as the reader takes it, pages without segments included, and fails only if that is cut off |
| OggPackets.Reader.Get8PacketRaw | stb_vorbis/stb_vorbis.c:1563-1573 | Returns the next byte of that packet, or EOP exactly at its end |
| OggPackets.Reader.FlushPacket | stb_vorbis/stb_vorbis.c:1592-1595 | Reading to the end raises no error and no end of file exactly when the whole of that packet is in the stream; the bytes read are then the packet's and the reader stands right behind it |
| OggPackets.Reader.StartPacket | stb_vorbis/stb_vorbis.c:1503-1516 | Starting a packet leaves exactly the packet to be read that the reader is going to take there |
| OggPackets.Reader.FilledTaken | stb_vorbis/stb_vorbis.c:1539-1558 | Where every page has a segment, the packet that the reader takes is the one that is there |
| OggPackets.Reader.IsWholePacketPresent | stb_vorbis/stb_vorbis.c:3519-3577 | The lookahead is true exactly when the whole packet is in the stream, pages without segments stepped over, and then comes to its end |
| OggPackets.Reader.ReadIfPresent | stb_vorbis/stb_vorbis.c:3519-3577 | When the lookahead is true, the reader takes `Taken`, an error included. Where every page has a segment, it raises no error or end of file and stops at the byte the lookahead came to, exactly unless the packet starts on a continued page |
| OggPackets.JoinedStreamFails | stb_vorbis/stb_vorbis.c:3553-3558 | A stream on which the lookahead is true and the reader fails |
| OggPackets.EmptyPageMisread | stb_vorbis/stb_vorbis.c:1548-1556 | A stream on which the lookahead comes to byte 55, and the reader ends the packet at byte 27 without an error |
| ApeRange.Decoder.Normalize | src/audio/ape_decoder.c:142-154 | Normalising keeps `low` equal to the input read so far less the interval's base, below the range, which ends above 2^23 |
| ApeRange.NormalizedSize | src/audio/ape_decoder.c:142-154 | Every interval keeps more than 23 bits and at most 31, and takes no byte more than it must |
| ApeRange.Decoder.DecodeCumulative | src/audio/ape_decoder.c:156-166 | For any input the divisor is positive and the quotient is the part of the interval the input lies in |
| ApeRange.Decoder.Update | src/audio/ape_decoder.c:168-171 | Narrowing keeps `low` tracking the input, with no wrap |
| ApeRange.FoundIsCoded | src/audio/ape_decoder.c:156-171 | The part found is one of those a coding step takes if and only if the input lies in the narrowed interval |
| ApeRange.EncodedContained | src/audio/ape_decoder.c:136-171 | Some byte string lies in every interval an encoder can reach |
| ApeValues.SymbolCoded | src/audio/ape_decoder.c:202-216 | A symbol is decoded exactly from the inputs in its parts of the interval |
| ApeValues.GetSymbol | src/audio/ape_decoder.c:202-216 | For any input, the range decoder and the search of the frequency table find the symbol that the input's place in the interval determines, an error included |
| ApeValues.SymbolUnique | src/audio/ape_decoder.c:191-216 | The frequency table shares out the parts so that each belongs to one symbol |
| ApeValues.FoldUnfold | src/audio/ape_decoder.c:289 | The signed mapping is a bijection with all 32-bit integers |
| ApeValues.FoldOrders | src/audio/ape_decoder.c:289 | Coded numbers list the integers by magnitude, the positive one of two first |
| ApeValues.BaseCodedRead | src/audio/ape_decoder.c:271-285 | A coded base is decoded from any input in its interval, whole or in two steps |
| ApeValues.ValueCodedRead | src/audio/ape_decoder.c:257-290 | Every input in the interval of the value v decodes to v, adapts as coding v does, and fails only if it is too short |
| ApeValues.DecodeValue | src/audio/ape_decoder.c:257-290 | For any input at all, value, adapted parameter and place are a function of the input and the place before |
| ApeRice.Approaches | src/audio/ape_decoder.c:220 | Each value moves `ksum` towards 32 times half its magnitude by a 32nd of the distance, rounded to the nearest number, and leaves it exactly if it is within 16 of that |
| ApeRice.FollowsSize | src/audio/ape_decoder.c:221-226 | `k` moves by one at most, and only towards 2^(k+4) <= ksum < 2^(k+5) |
| ApeRice.Settles | src/audio/ape_decoder.c:218-227 | When values of one magnitude repeat, the parameter comes to rest, and values are then divided by half their magnitude or one less |
| ApeRice.FirstPivot | src/audio/ape_decoder.c:341-344 | The first values are divided by 512 |
| ApeValues.StreamEncodable | src/audio/ape_decoder.c:257-290 | Any stream of 32-bit values is coded by some byte string |
| ApeValues.StreamRead | src/audio/ape_decoder.c:257-290 | Every input in the interval of a stream of values decodes to exactly that stream, with an error exactly if it is too short |
| ApeValues.EntropyDecoder.DecodeMono | src/audio/ape_decoder.c:310-313 | For any input, in runs of any length: the next values of the input's reading, and nothing else of the buffer changes |
| ApeValues.EntropyDecoder.DecodeStereo | src/audio/ape_decoder.c:315-322 | The same for two channels that take turns with a parameter each |
| ApeFilter.Filter.Init | src/audio/ape_decoder.c:531-540 | Clearing only part of the buffers is enough: the filter then represents the empty history, whatever was there before |
| ApeFilter.Filter.Push | src/audio/ape_decoder.c:582-595 | Writing the new values over expired cells keeps both windows |
| ApeFilter.Filter.Slide | src/audio/ape_decoder.c:597-602 | Moving to the front at the end of the array keeps both windows |
| ApeFilter.Filter.Apply | src/audio/ape_decoder.c:570-605 | For every count and every order from 16 on, the sliding array puts out what the recurrence over unbounded histories does |
| ApeFilter.Encodable | src/audio/ape_decoder.c:570-605 | Any 32-bit samples are the stage's output for some residuals |
| ApeFilter.Decodable | src/audio/ape_decoder.c:570-605 | Different residuals give different samples |
| ApeFilterLearning.Learns | src/audio/ape_decoder.c:551-556 | At any point of any run from the start, a residual moves the scalar product over the same samples in its direction, by the sum of the products' sizes, and does move it unless all samples are zero, where no coefficient leaves 16 bits |
| ApeFilterLearning.CoefficientTurns | src/audio/ape_decoder.c:546-589 | A coefficient moves by 8, 16 or 32 towards the sign of the residual times that of the sample, by where the sample lies against the average and four thirds of it |
| ApeFilterLearning.AverageFollows | src/audio/ape_decoder.c:591 | The average moves a sixteenth of the way towards the magnitude, rounded down, exactly unless the loudest negative sample comes after silence |
| ApeFilterLearning.RunRemembers | src/audio/ape_decoder.c:582-597 | In every state that a run reaches, each adaptation value has the sign against its sample and one of three sizes, halved after one, two and eight samples |
| ApeFilterLearning.Rounds | src/audio/ape_decoder.c:577-579 | The scalar product is scaled down to the nearest number and added to the residual |
| ApeFilterLearning.DotIsPlain | src/audio/ape_decoder.c:551-556 | The 32-bit scalar product is the plain one, wrapped once |
| ApeFilterLearning.NearestSample | src/audio/ape_decoder.c:558-562 | Samples are kept as the nearest 16-bit numbers |
| ApeFilterLearning.FirstThree | src/audio/ape_decoder.c:570-605 | A fresh stage lets two residuals through and adds to the third the second sample with weight 32 and the sign of the first two |
| ApePredictor.Predictor.Init | src/audio/ape_decoder.c:354-366 | Clearing only the first fifty cells is enough to start every delay line empty |
| ApePredictor.Predictor.UpdateFilter | src/audio/ape_decoder.c:370-420 | Updating one channel on the tape is the recurrence over its own delay lines and touches no live cell of the other channel |
| ApePredictor.Predictor.Advance | src/audio/ape_decoder.c:471-475 | Moving fifty cells to the front keeps all eight delay lines |
| ApePredictor.Predictor.DecodeStereo | src/audio/ape_decoder.c:424-476 | For any number of samples the outputs are those of delay lines that never wrap |
| ApePredictor.Predictor.DecodeMono | src/audio/ape_decoder.c:486-529 | The same for the mono predictor |
| ApeLossless.OutputInverts | src/audio/ape_decoder.c:370-420 | In every state, each 32-bit residual gives a sample of its own and every sample has a residual, wrapping and all |
| ApeLossless.Encodable | src/audio/ape_decoder.c:424-476 | Any two channels of 32-bit samples are the predictor's output for some residuals |
| ApeLossless.Decodable | src/audio/ape_decoder.c:424-476 | Different residuals give different outputs |
| ApeLossless.MonoInverts | src/audio/ape_decoder.c:486-529 | The mono predictor is invertible in every state |
| ApePredictorLearning.DrainLeaks | src/audio/ape_decoder.c:387-406 | Stage B takes off exactly the filter that the output stage puts on, wrapping and all |
| ApePredictorLearning.LeakShare | src/audio/ape_decoder.c:406 | The output filter keeps 31 parts in 32 of its last value |
| ApePredictorLearning.CombineShares | src/audio/ape_decoder.c:400-402 | Stage B has half the weight of stage A, and the prediction is 1024 times smaller than the two together |
| ApePredictorLearning.StageBSees | src/audio/ape_decoder.c:387 | Whatever the other channel put out before its output filter is the newest element of the stage B line |
| ApePredictorLearning.LinesAreDifferences | src/audio/ape_decoder.c:375-392 | At every step of every run, the four lines are the last value and the last differences of what the channels put out before the output filter: stage A of the channel itself, stage B of the other one, for the second channel with the present one |
| ApePredictorLearning.Predicts | src/audio/ape_decoder.c:380-406 | So each output is the residual on top of what the coefficients make of these, filtered |
| ApePredictorLearning.Learns | src/audio/ape_decoder.c:408-417 | At every step of every run, each coefficient moves by one towards the sign of the residual times that of its place on the line, and so both predictions from these lines move in the direction of the residual |
| ApePredictorLearning.FreshPrediction | src/audio/ape_decoder.c:352-360 | In terms of the last four outputs, a fresh predictor has the weights 677, -426, 207 and -98 |
| ApePredictorLearning.SinglePredictsAndLearns | src/audio/ape_decoder.c:486-529 | The same for a single channel |
| ApeStereo.Recombines | src/audio/ape_decoder.c:659-668 | Left and right correspond one to one with difference and middle, even where the arithmetic wraps |
| ApeStereo.MiddleIsMean | src/audio/ape_decoder.c:659-668 | The middle is the mean of left and right, the one nearer to left where two are |
| ApeStereo.UnpackStereo | src/audio/ape_decoder.c:659-668 | The loop recombines the first `count` samples in place and no others |
| ApePlayback.Track.HolderUnique | src/audio/ape_decoder.c:896-904 | A PCM frame lies in one physical frame only |
| ApePlayback.Track.TargetHolds | src/audio/ape_decoder.c:900-904 | Dividing by the blocks per frame in 32 bits, with the last frame clamped, finds the physical frame that holds a PCM frame exactly if `Reaches` says so |
| ApePlayback.Reader.ReadPcmFrames | src/audio/ape_decoder.c:796-844 | From PCM frame k, a read of any size delivers the track's samples from k on, up to the end or the first bad physical frame, and stands behind them; statuses and the error count are exactly determined |
| ApePlayback.OutputNearest | src/audio/ape_decoder.c:834-836 | No 16-bit sample is nearer to a 16-bit file's; a 24-bit file's is cut down to the next one below, as far as there is one |
| ApePlayback.FifthIsFatal | src/audio/ape_decoder.c:808-820 | The fifth bad frame in a row is fatal, and no earlier one |
| ApePlayback.Reader.Seek | src/audio/ape_decoder.c:896-914 | Succeeds exactly when the target frame decodes, and then stands at the PCM frame asked for, clamped to the end, exactly if `Reaches` says so, and at the target's end if not; a failed seek keeps its place in the track overwritten by what was decoded |
| ApePlayback.SeekMisses | src/audio/ape_decoder.c:896-914 | For any such PCM frame, a track with no blocks per frame on which a seek succeeds and lands at the start |
| ApePlayback.SeekWraps | src/audio/ape_decoder.c:896-914 | A track, for any blocks per frame, on which a seek to the end succeeds and lands behind the first physical frame, as the quotient is 2^32 |
| ApePlayback.Track.OverwrittenSample | src/audio/ape_decoder.c:905-914 | After a failed seek, a sample of the frame in the carry buffer is heard as it is if and only if nothing else was written in its place |
| ApePlayback.SpoiltRead | src/audio/ape_decoder.c:905-914 | For any two values, a track on which a failed seek makes the next read deliver the one where the track has the other |
| ApePlayback.Reader.Open | src/audio/ape_decoder.c:726-786 | Opening fails exactly when the first physical frame does not decode |
| ApeFilterBank.FilterBank.Apply | src/audio/ape_decoder.c:606-618 | Level by level and channel by channel, the filters compute the composed recurrences from a fresh start, and no filter disturbs another |
| ApeFrame.FrameEncodable | src/audio/ape_decoder.c:649-669 | Any 32-bit stereo samples are what some values decode to through filters, predictor and recombination |
| ApeFrame.FrameDecodable | src/audio/ape_decoder.c:649-669 | Different values decode to different samples |
| ApeFrameDecoder.CodedStereo | src/audio/ape_decoder.c:649-669 | Any code of two channels' values gives the samples they stand for, unless it is cut off |
| ApeFrameDecoder.SwapWords | src/audio/ape_decoder.c:692-699 | The swap in place reverses the bytes of every whole word and touches no others |
| ApeFrameDecoder.SwappedTwice | src/audio/ape_decoder.c:692-699 | Swapping twice changes nothing |
| ApeFrameDecoder.FrameDecoder.DecodePhysicalFrame | src/audio/ape_decoder.c:685-724 | Whatever the decoder did before, success and samples are a function of the frame's bytes and block count |
| ApeFrameDecoder.StereoFrameExists | src/audio/ape_decoder.c:685-724 | Any two channels of 32-bit samples are what some physical frame decodes to |
| ApeFrameDecoder.MonoFrameExists | src/audio/ape_decoder.c:685-724 | And so is any single channel |
| ApeFrameDecoder.FlaggedOutcome | src/audio/ape_decoder.c:328-338 | A frame whose checksum has its top bit set is decoded with the flags that follow, highest byte first |
| ApeFrameDecoder.SilentFrame | src/audio/ape_decoder.c:631-654 | Flags 1 and 2 together silence two channels, and either of them a single one |
| ApeFrameDecoder.HalfSilentFrame | src/audio/ape_decoder.c:649-654 | One of them alone does not silence two channels |
| ApeFrameDecoder.DuplicatedFrame | src/audio/ape_decoder.c:645-646 | With flag 4, any single channel is coded once and heard on both |
| ApeTrack.FramesFit | src/audio/ape_decoder.c:765-768 | Every physical frame fits the allocation, rounded to eight blocks in 32 bits and used by one channel as a whole, exactly if the last one does and the rounding of the others does not wrap |
| ApeTrack.HeadersThatDoNotFit | src/audio/ape_decoder.c:765-768 | Headers whose frames do not fit: any with 2^32 - 7 blocks per frame or more, and 8 blocks per frame with a last frame of 9 for two channels, or 17 for any |
| ApeTrack.DecodeFrame | src/audio/ape_decoder.c:685-724 | After any other frames, a physical frame that fits the allocation fills it with what the track, as reading and seeking see it, has there, or with what a bad frame leaves |
| ApeTrack.SignalHasFile | src/audio/ape_decoder.c:726-844 | Any stereo signal, cut into physical frames in any way, is the track of some file |
| AsfDemux.Cursor.ReadVariableField | src/audio/asf_demux.c:109-116 | Reads back any field written with the same selector and counts its bytes |
| AsfLayout.SelectorBits | src/audio/asf_demux.c:169-171 | A selector is its two bits of the flags byte, whatever is below and above them |
| AsfLayout.BytesValue | src/audio/asf_demux.c:109-116 | Fields are written lowest byte first |
| AsfLayout.StreamNumber | src/audio/asf_demux.c:208-209 | A payload's stream number is the low seven bits of its byte |
| AsfDemux.Demux.SkipCorrection | src/audio/asf_demux.c:144-162 | Skips error correction data of any length from two bytes on and finds the flags byte |
| AsfDemux.Demux.ReadPacketHeader | src/audio/asf_demux.c:136-191 | Enters the next packet of any layout with the file cursor at its first payload, or finds that there is none, by count or by end of file |
| AsfDemux.Demux.ReadPayloadHead | src/audio/asf_demux.c:202-249 | Reads the fields of any payload and the size of its data, in single and multiple payload packets |
| AsfDemux.Demux.TakeFragment | src/audio/asf_demux.c:259-293 | A fragment that carries on the object held is added and the last one completes it; one that is out of order, or whose end as a 32-bit sum is beyond the buffer, drops the object; one that the file cuts short fails |
| AsfDemux.Demux.AcceptedInside | src/audio/asf_demux.c:271 | A fragment that passes the test stays inside the buffer exactly if the 32-bit sum does not wrap or the file ends first |
| AsfDemux.Demux.OversizeAccepted | src/audio/asf_demux.c:271 | In the middle of any object some size passes the test and does not stay inside, unless the file ends first |
| AsfDemux.Demux.ReadFrame | src/audio/asf_demux.c:407-418 | Over any layout, however objects are cut, padded, selected and interleaved, returns the audio objects whole and in order, then false for ever |
| DsdFilter.Decimator.FeedBit | src/audio/dsd_filter.c:45-66 | Emits exactly on each multiple of the decimation factor, and then the direct convolution of the taps with the last inputs, silence before the start |
| DsdFilter.Decimator.Reset | src/audio/dsd_filter.c:39-43 | Resetting starts an empty stream |

## Left out

- The floating-point parts: IMDCT, windows, twiddle factors, lookup tables of codebook vectors, the tap design of the DSD filter. Gains, taps and products of `VorbisFloor` and `DsdFilter` are values of an arbitrary type with an arbitrary operation, so rounding is covered but not described.
- TinflInflate.Decompressor.CopyBytes: stored bytes are read and written one by one where the source moves runs; which bytes go where is the same.
- TinflInflate.Decompressor.ReadBlock: excludes blocks that come to bits no code begins. `TinflTables.GapDecodes` says what the tables make of them; where that takes no bits, a literal code would write zeros for ever.
- TinflInflate.Decompressor.ReadStream: excludes streams with such a block.
- TinflZlib.DecompressMemToCallback: requires that the input does not come to bits that no code begins, which only codes of at most one symbol have (`TinflParse.CompleteKnown`). All input is in memory; that suspending for input changes nothing is proved of the parts that read symbols (`TinflTokens.TokenReader.RunChunks`, `TinflLengths`) and of the bit reader. How much a wrong stream uses up is not stated. A callback that refuses output is not modelled.
- TinflHuff.HuffDecode: says nothing about input that no code begins, which only codes of a single symbol leave open.
- TinflTokens.TokenReader.Run: distances beyond the output so far, which the non-wrapping mode refuses, are not distinguished.
- The output modes of tinfl other than the wrapping window; its 64-bit bit buffer and eight-byte copies, which the 32-bit build leaves out.
- VorbisDecode.Codebook.DecodeRaw: says nothing about bits that no codeword of an incomplete book begins, nor about a packet already marked invalid.
- VorbisDecode.PacketBits.PrepHuffman: the packet is a byte sequence; `VorbisPacket.PrepHuffman` takes it from the segment reader, for packets that are whole.
- VorbisFloor.DrawLine: without the optional table of divisions.
- VorbisFloor.Floor1.FinalInRange: packet values of 2^15 or more, which the 16-bit array would truncate, and values out of range are not followed further.
- OggPackets.Reader.StartPage: granule positions, page sequence numbers and checksums are read and dropped.
- VorbisFloorSetup.Prepare: takes the points as a list; reading them from the setup header, with its partitions and classes, is left out.
- Vorbis residues, channel coupling, seeking and the resynchronisation of the push API.
- ApeValues.DecodeValue: versions before 3990, with their own value coding, are left out.
- ApeFrameDecoder.FrameDecoder.DecodePhysicalFrame: the checksum in the frame header is skipped, as in the source; fetching the frame's bytes from the file is left out. It requires that the frame fits the sample buffers (`ApeTrack.FramesFit`).
- ApePredictor.Predictor.DecodeStereo: the second pass for 24-bit files is left out; its switch compares a non-negative minimum with a negative bound and never happens.
- ApeTrack.DecodeFrame: requires that the frame fits the allocation (`ApeTrack.FramesFit` says when all do) and has fewer than 2^31 blocks, as the source converts the count to a signed one; sizes in bytes are taken as 64-bit numbers. For one channel the second half of the allocation is the end of the same buffer.
- ApePlayback.Reader.DecodePhysicalFrame: takes what a physical frame decodes to from the track; that the decoder computes just that is `ApeTrack.DecodeFrame`.
- ApePlayback.Reader.ReadPcmFrames: the 32-bit variant differs only in clipping.
- AsfDemux.Demux.TakeFragment: requires that a fragment which passes the test stays inside the buffer (`AsfDemux.Demux.AcceptedInside` says exactly when); every fragment of a layout does.
- AsfDemux.Demux.ReadFrame: compressed payloads of the audio stream are returned as one object and are not part of a layout; packets without payloads, header objects and packet seeking are left out, and file positions do not wrap.
- DsdFilter.Decimator.FeedBit: requires at least one tap and a positive decimation factor.
- File handles, memory allocation failure, threads, and the formats whose codecs are foreign libraries.
