# Verified models of the image decoders and the grammar pipeline

Two components are modelled and proved correct.

**The decoders of `stb_image.h`.** The DEFLATE inflater is proved against RFC 1951 from the bit reader up to
whole zlib streams; the reconstruction of PNG images against sections 2.6 and 6 of RFC 2083; the GIF raster
decoder against Appendixes E and F of GIF89a. Each component comes with an encoder as its other end, and a
round trip over all inputs.

**The Gramatron grammar pipeline.** The conversion of a context-free grammar to Greibach normal form is proved to
preserve languages pass by pass, and the automaton built from the result to have exactly the derivations of the
grammar as its paths, up to the order of expansion. It is proved when the order is kept and when the loops end.

## Files

| files | what they hold |
|---|---|
| `Bits`, `BitPacking`, `Reversal` | bytes, shifts, streams of bits in both orders, packing, bit reversal |
| `Huffman`, `HuffmanTable` | canonical codes, the Kraft inequality, the decoding tables and the method that builds them |
| `Deflate`, `Output`, `Inflate` | the format of RFC 1951 as predicates on a stream; buffer growth; the `stbi__zbuf` class |
| `RoundTrip`, `DynamicTrip` | encoders of stored, fixed and dynamic blocks, the latter with every kind of header |
| `DeflateTables` | the tables and rules of RFC 1951 in closed form |
| `Sizes` | the tests that keep products of sizes within 32 bits |
| `PngFilter`, `PngRows`, `PngUnpack`, `PngAlpha`, `PngNative` | filters; rows rebuilt in the buffer; small samples expanded in place; alpha channels; byte order |
| `Adam7`, `PngScatter`, `Png`, `PngRoundTrip` | the seven passes; copying a pass; whole images; an encoder |
| `PngPlain` | decoded pictures byte by byte, in plain arithmetic |
| `GifLzw`, `GifEncoding`, `GifRaster`, `GifOffsets` | LZW on strings; encoders; the drawing order; the range of the byte offsets |
| `Gif`, `GifTrip`, `GifPlain` | the `stbi__gif` class; an encoder and the decoder together; images in plain terms |
| `Grammar`, `Substitution`, `Lifting`, `LeftRecursion` | derivations and languages; the three rewriting steps that preserve them |
| `Conversion`, `Gnf` | what every pass of the converter computes, as functions; the methods and their proofs |
| `Rounds`, `UnitRemoval`, `NormalFormEnds`, `Circles`, `ConversionEnds` | what a round makes of the rules; when the loops of the converter and the whole conversion end, and when they raise an exception |
| `Reduction`, `Paths`, `Ordering`, `Layout`, `Automaton` | derivations up to the order of expansion; paths of an automaton; when the order is kept; the transitions of a state and the stack limit; the worklist construction |
| `Gramatron` | converter and construction, one after the other |

## How the source is modelled

- Words are natural numbers. Shifts are multiplications and divisions by powers of two, masks of low bits are
  remainders, and or-ing disjoint bits is addition; the words of the bit reader are proved to stay within 32 bits
  and the 16-bit table fields are written with their truncation. The bit reversal uses real bitwise operations.
- The input of the inflater is a stream that goes on with zeros, as `stbi__zget8` delivers it. A ghost position ties
  the buffered bits to that stream.
- The code gives the length symbols 286 and 287 and the distance symbols 30 and 31 a base of zero. RFC 1951 gives
  them no meaning. The model stops there with the status `Undefined`, and the format predicates have no item for them.
- The code takes the field for the number of literal/length codes as it is, up to 288 codes; section 3.2.7 of RFC 1951
  has at most 286. The format predicates read headers as the code does. `StandardHeader` is the limit of the standard,
  and it is proved that the two agree on a stream exactly if its dynamic headers keep to it.
- An encoder of Appendix F of GIF89a may go on without a clear code when its table is full. The code keeps counting
  entries up to 8192 and then refuses; that limit is the predicate `Limited`.
- `stbi__zhuffman_decode` refuses to start with fewer than sixteen buffered bits at the end of input. Acceptance is
  therefore promised for streams that end in a stored block, or are followed by two bytes; those before an Adler-32
  checksum always are.
- The output buffer is replaced by a larger array where the source reallocates, and allocation succeeds. A buffer that
  may grow has at least one byte.
- A PNG image is rebuilt in one array with the offsets of the source. The filters of one row run pixel by pixel with
  the choice of filter inside; the source has one loop per filter over the same bytes in the same order. The unrolled
  statements that expand a byte are a loop that reads the byte again for every sample, as they do.
- The byte order of the machine is a constant of the `Png` class. Contracts speak of 16-bit pictures read with the more
  significant byte first; `PngNative.BigEndian` is that view, and taking it twice gives the bytes back.
- The GIF code table is an array that entries are written to field by field. The source compares the code with the
  entry counter after raising it, which never holds; that the entry being defined works nevertheless is proved from
  the order of the writes.
- Grammar rules are lists of tokens: terminals, names, and names made up by the converter. Double-quoted tokens count
  as names, as in `isTerminal`. Dictionaries remember the order of their keys. `Raised` stands for the exceptions of
  the scripts: a name without rule list, or an empty rule. Two loops need not end: unit removal for the one rule
  `A -> A`, and the normal-form loop for three names that lead to each other in a circle. Loops are followed for a given number of
  rounds, and `Unfinished` says that this was not enough.
- `terminal_exist` asks for a token of length one, but a quoted terminal has at least two characters. It never finds
  a name, so every lifted terminal gets its own, although the comment at its call expects otherwise.
- The automaton merges states whose sorted stacks are equal, which is equality of multisets. The theorems are about
  derivations up to the order of expansion for that reason. `Ordering.OneOrder` is the exact condition on the grammar
  for the order to be kept. The construction fails on a missing rule list, and on a rule whose terminal has no text,
  which the pattern that takes rules apart does not match.
- `GrammarToAutomaton` reads the start symbol from the rule of `Start` and hands on the other rules; the stacks of the
  source never hold the name `Start` either.

## Model

| member | source | states |
|---|---|---|
| `Inflate.DoZlib` | fuzzers/libfuzzer_stb_image/stb_image.h:4702-4739 | End to end: when decoding succeeds the zlib header was valid and the bytes are what the blocks that the code reads from the zero-extended input stand for; they are what RFC 1951 gives the stream exactly if every dynamic header keeps to its limit of 286 literal/length codes; conversely every such list of stored, fixed and dynamic blocks whose output fits the buffer, and which ends in a stored block or two bytes before the end of the input, is decoded to exactly its bytes |
| `Inflate.InflatesUnique` | fuzzers/libfuzzer_stb_image/stb_image.h:4702-4739 | The input alone determines the output, so a successful result does not depend on the initial size or on whether the buffer may grow |
| `Deflate.StandardIff` | fuzzers/libfuzzer_stb_image/stb_image.h:4580-4618 | The blocks that the code reads are blocks of section 3.2.7 of RFC 1951 if and only if the field for the number of literal/length codes is at most 29 in every dynamic header |
| `Inflate.StandardMeaningIff` | fuzzers/libfuzzer_stb_image/stb_image.h:4702-4739 | Among the streams that are read, those with a meaning by the letter of RFC 1951 are exactly those whose dynamic headers keep to its limit, and then the bytes are the same |
| `DynamicTrip.TooManyLiterals` | fuzzers/libfuzzer_stb_image/stb_image.h:4580-4618 | A stream with 288 literal/length codes in its dynamic header: the code decodes it, by the letter of RFC 1951 it has no meaning |
| `Inflate.ZBuf.ParseZlib` | fuzzers/libfuzzer_stb_image/stb_image.h:4702-4729 | Success means that the header is valid, the stream from there on is a list of blocks ending in a final one, and the output is what the blocks say; failure means a bad header or that no such list of blocks that ends in time fits |
| `Inflate.ZBuf.ParseZlibHeader` | fuzzers/libfuzzer_stb_image/stb_image.h:4654-4670 | Accepts exactly the two-byte headers of RFC 1950 that the code allows: check value, no preset dictionary, method 8 |
| `Inflate.ZBuf.ParseHuffmanBlock` | fuzzers/libfuzzer_stb_image/stb_image.h:4522-4573 | The items read are those that the two codes spell up to the end-of-block symbol and the output grows by their meaning; on failure no item list that ends two bytes before the end of input is valid, in range and fitting |
| `Inflate.ZBuf.ReadMatch` | fuzzers/libfuzzer_stb_image/stb_image.h:4537-4548 | Length and distance are the base plus extra bits of section 3.2.5 of RFC 1951, or the stream has no such item |
| `Inflate.ZBuf.CopyRun` | fuzzers/libfuzzer_stb_image/stb_image.h:4557-4562 | The shortcut for distance one appends the same bytes as the byte loop |
| `Inflate.ZBuf.CopyBytes` | fuzzers/libfuzzer_stb_image/stb_image.h:4563-4569 | The byte loop copies from `dist` back, also where it reads bytes it has just written |
| `Deflate.CopyIsPeriodic` | fuzzers/libfuzzer_stb_image/stb_image.h:4557-4569 | A copy is the periodic extension of the last `dist` bytes |
| `Inflate.ZBuf.Expand` | fuzzers/libfuzzer_stb_image/stb_image.h:4481-4503 | Growing succeeds exactly if the buffer may grow and some doubling holds the bytes within 32 bits; it takes the least such doubling and keeps all earlier output |
| `Output.RoomAfterGrowth` | fuzzers/libfuzzer_stb_image/stb_image.h:4481-4503 | Growing in several steps reaches every size that growing at once would |
| `Output.RoomIff` | fuzzers/libfuzzer_stb_image/stb_image.h:4481-4503 | A buffer can end up with exactly those sizes that it has room for, or that some doubling within 32 bits has |
| `Output.NoDoublingFits` | fuzzers/libfuzzer_stb_image/stb_image.h:4481-4503 | Once a doubling passes the 32-bit limit without holding the bytes, no doubling does |
| `Inflate.ZBuf.ComputeHuffmanCodes` | fuzzers/libfuzzer_stb_image/stb_image.h:4575-4623 | The two codes are those that the header describes, read as section 3.2.7 of RFC 1951 does but with up to 288 literal/length codes, as the code does; repeats may cross from one list to the other; failure means that the header describes none |
| `Inflate.ZBuf.ReadOp` | fuzzers/libfuzzer_stb_image/stb_image.h:4595-4617 | One operation on the list of code lengths does what the format says, with every error of the code: bad symbol, nothing to repeat, too many lengths |
| `Inflate.ZBuf.ReadLens` | fuzzers/libfuzzer_stb_image/stb_image.h:4595-4618 | Exactly the announced number of code lengths is read, or there is no such list |
| `Deflate.OrderIndexInverts` | fuzzers/libfuzzer_stb_image/stb_image.h:4576-4590 | The order in which code length lengths are sent is a permutation of 0 to 18 |
| `Inflate.ZBuf.DrainBytes` | fuzzers/libfuzzer_stb_image/stb_image.h:4632-4638 | At most three buffered bytes are drained and they are the next bytes of the stream, so no payload is lost |
| `Inflate.ZBuf.ReadStoredHeader` | fuzzers/libfuzzer_stb_image/stb_image.h:4625-4645 | The length is the one after the next byte boundary and is accepted exactly if it is the complement of the next word |
| `Inflate.ZBuf.ParseUncompressedBlock` | fuzzers/libfuzzer_stb_image/stb_image.h:4625-4652 | The bytes of a stored block are appended; failure means a bad header, too little input, or no room |
| `Inflate.ZBuf.BuildFixed` | fuzzers/libfuzzer_stb_image/stb_image.h:4673-4719 | The fixed tables are complete codes, so building them never fails |
| `Deflate.FixedLiteralsKraft` | fuzzers/libfuzzer_stb_image/stb_image.h:4673-4685 | The fixed literal lengths of section 3.2.6 of RFC 1951 use the code space up exactly: their Kraft sum is the whole space |
| `Deflate.FixedDistancesKraft` | fuzzers/libfuzzer_stb_image/stb_image.h:4686-4688 | ... and so do the fixed distance lengths |
| `Deflate.StreamUnique` | fuzzers/libfuzzer_stb_image/stb_image.h:4702-4729 | The block structure of a stream is unambiguous: two readings of the same bits have the same blocks and ends |
| `Deflate.BodyUnique` | fuzzers/libfuzzer_stb_image/stb_image.h:4522-4573 | The items of a compressed block are unambiguous |
| `Deflate.NoBlockBeyondEnd` | fuzzers/libfuzzer_stb_image/stb_image.h:4702-4729 | No block begins in the zeros after the end of input and ends two bytes before it |
| `Deflate.FirstInTime` | fuzzers/libfuzzer_stb_image/stb_image.h:4702-4729 | A stream that ends in time has every block end in time: only what the last block needs behind it has to be asked for |
| `Inflate.ZBuf.FillBits` | fuzzers/libfuzzer_stb_image/stb_image.h:4425-4434 | Refilling leaves more than 24 buffered bits and keeps the position and the buffered bits those of the zero-extended stream |
| `Inflate.ZBuf.Receive` | fuzzers/libfuzzer_stb_image/stb_image.h:4436-4443 | Yields the next `n` bits of the stream, least significant first, and moves on by `n` |
| `Inflate.ZBuf.CodeBufferFits` | fuzzers/libfuzzer_stb_image/stb_image.h:4425-4434 | The buffered bits always fit a 32-bit word, so nothing is shifted out |
| `Bits.AppendByte` | fuzzers/libfuzzer_stb_image/stb_image.h:4425-4434 | Or-ing the next byte in above the buffered bits extends them by eight stream bits |
| `Bits.LsbTake` | fuzzers/libfuzzer_stb_image/stb_image.h:4436-4443 | Masking yields, and shifting drops, exactly the first bits of the buffer |
| `Inflate.ZBuf.HuffmanDecode` | fuzzers/libfuzzer_stb_image/stb_image.h:4463-4479 | Returns the one symbol whose canonical code is a prefix of the stream and consumes exactly its length; -1 only if there is none, or if fewer than sixteen bits are left at the end of input |
| `Inflate.ZBuf.DecodeSlow` | fuzzers/libfuzzer_stb_image/stb_image.h:4445-4461 | The slow search decodes the same code; its range and size checks never fail |
| `HuffmanTable.FastLookup` | fuzzers/libfuzzer_stb_image/stb_image.h:4463-4479 | A fast entry names the code that the next bits start with; an empty one means that no code of nine bits or less does |
| `HuffmanTable.SlowLookup` | fuzzers/libfuzzer_stb_image/stb_image.h:4445-4461 | The first length whose range ends above the window names the symbol and its slot |
| `HuffmanTable.BeyondRanges` | fuzzers/libfuzzer_stb_image/stb_image.h:4453-4454 | A window past all ranges starts with no code |
| `HuffmanTable.ZHuffman.Build` | fuzzers/libfuzzer_stb_image/stb_image.h:4351-4396 | A list of lengths below 16 is accepted exactly if it satisfies the Kraft inequality; then all tables are those of its canonical code |
| `HuffmanTable.ZHuffman.AssignCodes` | fuzzers/libfuzzer_stb_image/stb_image.h:4364-4377 | Codes of each length are consecutive after twice the end of the previous ones, and overflow of any length is found |
| `HuffmanTable.ZHuffman.FillFast` | fuzzers/libfuzzer_stb_image/stb_image.h:4385-4391 | A value is entered at exactly the indices whose low bits are the reversed code |
| `HuffmanTable.SlotOrder` | fuzzers/libfuzzer_stb_image/stb_image.h:4381-4384 | The slots list the used symbols by length and then by symbol |
| `HuffmanTable.SlotTaken` | fuzzers/libfuzzer_stb_image/stb_image.h:4381-4384 | ... and leave no slot free between them |
| `Huffman.KraftIff` | fuzzers/libfuzzer_stb_image/stb_image.h:4362-4376 | The Kraft inequality holds exactly if the codes of every length fit into that many bits |
| `Huffman.RangesTile` | fuzzers/libfuzzer_stb_image/stb_image.h:4365-4376 | The 16-bit ranges of consecutive lengths meet without gap or overlap |
| `Huffman.PrefixFree` | fuzzers/libfuzzer_stb_image/stb_image.h:4351-4396 | No two symbols have codes that start the same stream |
| `Huffman.DecodedIff` | fuzzers/libfuzzer_stb_image/stb_image.h:4463-4479 | The reference decoder returns a symbol exactly if its code stands in the stream |
| `Huffman.CodeFits` | fuzzers/libfuzzer_stb_image/stb_image.h:4364-4376 | Under the Kraft inequality every code fits its length |
| `Reversal.BitReverse16IsRev` | fuzzers/libfuzzer_stb_image/stb_image.h:4336-4342 | The four masked swaps reverse sixteen bits |
| `Reversal.BitReverseIsRev` | fuzzers/libfuzzer_stb_image/stb_image.h:4344-4349 | Reversing sixteen bits and shifting reverses the low `bits` bits |
| `Reversal.RevInvolution` | fuzzers/libfuzzer_stb_image/stb_image.h:4336-4349 | Reversing twice gives the number back |
| `RoundTrip.ReadSymbols` | fuzzers/libfuzzer_stb_image/stb_image.h:4425-4479 | Any list of symbols written with the canonical codes and followed by two bytes is read back by repeated decoding, across every refill |
| `RoundTrip.EncodedSpells` | fuzzers/libfuzzer_stb_image/stb_image.h:4351-4396 | Writing symbols with their canonical codes spells them |
| `RoundTrip.DecodeEncoded` | fuzzers/libfuzzer_stb_image/stb_image.h:4702-4739 | Any list of literals and matches written as a fixed block, packed into bytes and followed by two more, is decoded to the bytes it stands for, in every buffer that can hold them |
| `RoundTrip.StoredStandsFor` | fuzzers/libfuzzer_stb_image/stb_image.h:4625-4652 | A final stored block with nothing behind it stands for its bytes, so it is decoded to them |
| `DynamicTrip.DynamicStandsFor` | fuzzers/libfuzzer_stb_image/stb_image.h:4575-4623 | Any literals and matches, written with any two prefix codes that have words for them, in a dynamic block that sends the code lengths in any header, with any code length code and any cut of the list into single lengths and runs, and followed by two bytes, stand for the bytes of the items; by the letter of RFC 1951 they do so exactly if there are at most 286 literal/length codes |
| `DynamicTrip.CodesRead` | fuzzers/libfuzzer_stb_image/stb_image.h:4583-4623 | The code lengths that are sent are the code lengths that are read, whatever the header; its counts and the lengths of the code length code stand where section 3.2.7 of RFC 1951 has them |
| `DynamicTrip.LengthAdded` | fuzzers/libfuzzer_stb_image/stb_image.h:4597-4600 | A symbol below 16 adds that length to the list |
| `DynamicTrip.LastRepeated` | fuzzers/libfuzzer_stb_image/stb_image.h:4603-4616 | Symbol 16 and two bits add three to six times the last length; without one, or without room for them, the header is refused |
| `DynamicTrip.FewZerosAdded` | fuzzers/libfuzzer_stb_image/stb_image.h:4607-4616 | Symbol 17 and three bits add three to ten zeros, or the header is refused |
| `DynamicTrip.ManyZerosAdded` | fuzzers/libfuzzer_stb_image/stb_image.h:4609-4616 | Symbol 18 and seven bits add eleven to 138 zeros, or the header is refused |
| `DynamicTrip.OpsRead` | fuzzers/libfuzzer_stb_image/stb_image.h:4595-4618 | However a list of code lengths is cut into single lengths and runs, it is read back |
| `DynamicTrip.DecodeDynamic` | fuzzers/libfuzzer_stb_image/stb_image.h:4702-4739 | The whole way as a call: a dynamic block with any header is decoded to the bytes its items stand for, in every buffer that can hold them |
| `RoundTrip.LengthRanges` | fuzzers/libfuzzer_stb_image/stb_image.h:4505-4512 | The ranges of the length symbols leave no gap, so every length from 3 to 258 can be written |
| `RoundTrip.DistRanges` | fuzzers/libfuzzer_stb_image/stb_image.h:4513-4520 | The ranges of the distance symbols leave no gap |
| `DeflateTables.LengthTable` | fuzzers/libfuzzer_stb_image/stb_image.h:4505-4512 | The entries of the length tables are those of section 3.2.5 of RFC 1951, in closed form |
| `DeflateTables.DistanceTable` | fuzzers/libfuzzer_stb_image/stb_image.h:4513-4520 | ... and so are those of the distance tables |
| `DeflateTables.TransmissionOrder` | fuzzers/libfuzzer_stb_image/stb_image.h:4576-4577 | The order of the code length symbols is the one of section 3.2.7 of RFC 1951, in closed form |
| `DeflateTables.LiteralMeaning` | fuzzers/libfuzzer_stb_image/stb_image.h:4525-4542 | Symbols up to 255 are bytes and 256 is the end of the block |
| `DeflateTables.CopyMeaning` | fuzzers/libfuzzer_stb_image/stb_image.h:4543-4549 | The other symbols are a length with its extra bits and a distance with its own, by the formulas of the standard |
| `DeflateTables.ItemEffect` | fuzzers/libfuzzer_stb_image/stb_image.h:4550-4571 | A match repeats the bytes from its distance back, and is an error exactly if that is before the first byte |
| `DeflateTables.CanonicalOrder` | fuzzers/libfuzzer_stb_image/stb_image.h:4362-4384 | Codes of one length follow each other in the order of their symbols, and the next length starts after twice the last code |
| `DeflateTables.StandardExample` | fuzzers/libfuzzer_stb_image/stb_image.h:4362-4384 | The example of section 3.2.2 of RFC 1951 has the codes given there |
| `DeflateTables.FixedWords` | fuzzers/libfuzzer_stb_image/stb_image.h:4673-4685 | The fixed literal/length codes are the words of section 3.2.6 of RFC 1951 |
| `DeflateTables.FixedDistanceWords` | fuzzers/libfuzzer_stb_image/stb_image.h:4686-4688 | Fixed distance symbols are five-bit numbers |
| `DeflateTables.LastBlock` | fuzzers/libfuzzer_stb_image/stb_image.h:4707-4727 | The bits of a block header: last block, then the kind with its low bit first; kind three is none |
| `DeflateTables.EarlierBlock` | fuzzers/libfuzzer_stb_image/stb_image.h:4707-4727 | A block that is not marked as the last one is followed by the rest of the stream |
| `DeflateTables.ZlibHeaderIff` | fuzzers/libfuzzer_stb_image/stb_image.h:4654-4670 | The two bytes of a zlib header, in plain arithmetic |
| `DeflateTables.LetterA` | fuzzers/libfuzzer_stb_image/stb_image.h:4702-4739 | The bytes 4B 04 00, which compressors write for the letter a, stand for it |
| `Png.Png.CreateImage` | fuzzers/libfuzzer_stb_image/stb_image.h:5175-5218 | Interlaced or not, the call fails for exactly the stated reason, which for an interlaced picture that is too large is the first pass or the missing buffer, and otherwise every pixel of the picture, in the byte order of the machine, has the samples that the unfiltered row at its place holds, with opaque alpha where there is room for it |
| `Png.Png.CreateImageRaw` | fuzzers/libfuzzer_stb_image/stb_image.h:4887-5173 | One image: sizes out of range, too little data, an unknown filter type or a too wide packed row are the only failures, in this order of tests; otherwise every pixel holds its unfiltered, unpacked and scaled samples, those of 16 bits in the byte order of the machine |
| `PngPlain.PictureByte` | fuzzers/libfuzzer_stb_image/stb_image.h:4887-5173 | Every byte of a decoded picture: byte c of pixel q in row j is that byte of the rebuilt and unpacked row, or 255 where alpha was added |
| `PngPlain.ByteOrder` | fuzzers/libfuzzer_stb_image/stb_image.h:5158-5168 | On a machine with the less significant byte first, the two bytes of every 16-bit sample have changed places |
| `PngPlain.Refusals` | fuzzers/libfuzzer_stb_image/stb_image.h:4903-4932 | Why image data is refused, test by test, in plain arithmetic |
| `PngPlain.InterlacedByte` | fuzzers/libfuzzer_stb_image/stb_image.h:5175-5218 | Every byte of an interlaced picture, from the rebuilt row of its pass |
| `PngPlain.PassRefusals` | fuzzers/libfuzzer_stb_image/stb_image.h:5186-5204 | Interlaced data is refused for the first pass with pixels that is |
| `Png.LengthFits` | fuzzers/libfuzzer_stb_image/stb_image.h:4903-4910 | Once the two size tests have passed, the products that are not tested, the bytes of a row and of the whole image, do not wrap around |
| `Sizes.Mul2SizesValidIff` | fuzzers/libfuzzer_stb_image/stb_image.h:1017-1022 | The division finds exactly the products within the limit |
| `Sizes.Mad3SizesValidIff` | fuzzers/libfuzzer_stb_image/stb_image.h:1033-1036 | Three sizes and an addend are accepted exactly if no product and no sum passes the limit |
| `PngNative.ToNative` | fuzzers/libfuzzer_stb_image/stb_image.h:5158-5168 | The bytes of every 16-bit sample are put into the order of the machine, in place |
| `PngNative.AllCopiedSwapped` | fuzzers/libfuzzer_stb_image/stb_image.h:5206-5213 | Copying the pixels of a pass after that gives the same picture as before it |
| `Png.UnfilterRows` | fuzzers/libfuzzer_stb_image/stb_image.h:4926-5080 | All rows hold what section 6 of RFC 2083 rebuilds from the row before; the width test is made after the first filter type is read |
| `PngRows.UnfilterInPlace` | fuzzers/libfuzzer_stb_image/stb_image.h:4939-5076 | A row rebuilt in the buffer, with a gap for alpha or without, from the bytes to the left and the row above; nothing outside the row changes |
| `PngRows.UnfilteredIsRebuilt` | fuzzers/libfuzzer_stb_image/stb_image.h:4936-4937 | What the code rebuilds, with its own filters for the first row and without looking at rows it does not need, is the unfiltered row of the standard |
| `PngFilter.FirstRowFilters` | fuzzers/libfuzzer_stb_image/stb_image.h:4856-4871 | In the first row the synthetic filters add what the general ones add over a row of zeros |
| `PngFilter.Paeth` | fuzzers/libfuzzer_stb_image/stb_image.h:4873-4881 | The result is the neighbour closest to a + b - c, ties going to a before b before c |
| `PngFilter.UnfilterUndoesFilter` | fuzzers/libfuzzer_stb_image/stb_image.h:4926-5080 | Unfiltering undoes filtering for every filter type, pixel size and row above |
| `PngFilter.FilterUndoesUnfilter` | fuzzers/libfuzzer_stb_image/stb_image.h:4926-5080 | Filtering undoes unfiltering, so no two byte rows rebuild to the same row |
| `PngFilter.RowsOfFiltered` | fuzzers/libfuzzer_stb_image/stb_image.h:4926-5080 | Whatever filter types an encoder chooses row by row, the rows come back |
| `PngFilter.RowsRefused` | fuzzers/libfuzzer_stb_image/stb_image.h:4926-4929 | An image is refused exactly if some row has a filter type above 4 |
| `PngPlain.RebuiltByte` | fuzzers/libfuzzer_stb_image/stb_image.h:4936-5080 | Each rebuilt byte is the byte that was sent plus nothing, the byte to the left, the one above, the floor of half their sum, or the one of the three neighbours that is closest to left + above - upper left; neighbours outside the picture are zero |
| `PngPlain.ImageByte` | fuzzers/libfuzzer_stb_image/stb_image.h:4926-5080 | The same for every row of an image, from the inflated data: each row is its filter type and its bytes |
| `PngAlpha.SetLowAlpha` | fuzzers/libfuzzer_stb_image/stb_image.h:5072-5079 | The second pass completes the alpha of 16-bit pixels and changes no sample |
| `PngUnpack.NoClobber` | fuzzers/libfuzzer_stb_image/stb_image.h:5085-5139 | For every width and depth, writing a sample from the left never hits a packed byte that a later sample is read from |
| `PngUnpack.Unpack` | fuzzers/libfuzzer_stb_image/stb_image.h:5099-5139 | Expansion in place equals unpacking into a separate row |
| `PngUnpack.UnpackUndoesPack` | fuzzers/libfuzzer_stb_image/stb_image.h:5099-5139 | Samples packed leftmost in the high bits are unpacked again |
| `PngUnpack.ScaledFits` | fuzzers/libfuzzer_stb_image/stb_image.h:4883-4884 | Scaled grey samples stay in a byte and the largest becomes 255 |
| `PngPlain.UnpackedSample` | fuzzers/libfuzzer_stb_image/stb_image.h:5085-5139 | Each sample is its bits of the packed byte, the leftmost sample in the high bits, and grey samples are multiplied by 255 over the largest value |
| `PngAlpha.InsertAlpha` | fuzzers/libfuzzer_stb_image/stb_image.h:5140-5157 | Inserting alpha from the right in place puts every sample where it belongs: no sample is overwritten before it has moved |
| `PngAlpha.MovedElsewhere` | fuzzers/libfuzzer_stb_image/stb_image.h:5140-5157 | Moving a pixel keeps the samples to its left and the finished pixels to its right |
| `PngRoundTrip.FilteredAccepted` | fuzzers/libfuzzer_stb_image/stb_image.h:4887-5173 | Filtered rows of any image, whatever follows them, give back the rows, and they are refused if and only if their packed width is out of range or fails the width test of the code |
| `PngRoundTrip.SmallSamplesReturn` | fuzzers/libfuzzer_stb_image/stb_image.h:5085-5139 | Packed samples come back, scaled |
| `PngRoundTrip.OneChannelFits` | fuzzers/libfuzzer_stb_image/stb_image.h:4931-4932 | Grey and palette rows of every size pass the width test |
| `PngRoundTrip.InterlacingUndone` | fuzzers/libfuzzer_stb_image/stb_image.h:5186-5217 | A picture of 1, 2, 4, 8 or 16 bits that is split into passes, packed and filtered comes back pixel for pixel from the picture that CreateImage shows: small grey samples scaled, with opaque alpha where there is room for it |
| `PngRoundTrip.PassesAccepted` | fuzzers/libfuzzer_stb_image/stb_image.h:5188-5204 | ... and its data is accepted if and only if the width of every pass with pixels is in range and passes the width test |
| `PngRoundTrip.PassesFit` | fuzzers/libfuzzer_stb_image/stb_image.h:4931-4932 | ... which it does for grey and palette pictures and those of 8 and 16 bits, if a whole row is in range |
| `PngRoundTrip.DecodeInterlaced` | fuzzers/libfuzzer_stb_image/stb_image.h:5175-5218 | The two together, as a call: decoding the interlaced data of a picture succeeds if and only if the widths are accepted, and then every pixel is that of the picture |
| `PngScatter.CopyPass` | fuzzers/libfuzzer_stb_image/stb_image.h:5206-5213 | Exactly the pixels of the pass are copied, each to its own place |
| `Adam7.PassesPartition` | fuzzers/libfuzzer_stb_image/stb_image.h:5189-5211 | Every pixel of every image is the target of exactly one pass, column and row |
| `Adam7.TargetIsOwn` | fuzzers/libfuzzer_stb_image/stb_image.h:5189-5211 | Every target lies inside the image |
| `Adam7.AreasAddUp` | fuzzers/libfuzzer_stb_image/stb_image.h:5194-5196 | The passes together hold as many pixels as the image |
| `PngPlain.Pattern` | fuzzers/libfuzzer_stb_image/stb_image.h:5189-5192 | The pass of every pixel is the one of the pattern in section 2.6 of RFC 2083 |
| `PngPlain.PassGrid` | fuzzers/libfuzzer_stb_image/stb_image.h:5189-5196 | How many columns and rows each pass has, and in which of them a pixel lies |
| `PngPlain.PassData` | fuzzers/libfuzzer_stb_image/stb_image.h:5197-5216 | Where the data of each pass begins |
| `Gif.Gif.LoadImage` | fuzzers/libfuzzer_stb_image/stb_image.h:7190-7236 | One image of a GIF: a rectangle outside the picture or a missing color table is refused; otherwise every pixel of the rectangle gets the index that the data has at its place in the drawing order, every other pixel is unchanged, and the status is that of the data |
| `GifTrip.DecodeEncoded` | fuzzers/libfuzzer_stb_image/stb_image.h:7190-7236 | An encoder and the decoder together, as a call: loading an image that any encoder wrote succeeds if and only if its codes keep to the limit; then every pixel of the rectangle has the color of the index given for its place in the drawing order, and reading stops behind the image. Past the limit the status is too many codes and what was painted is a proper part of it |
| `GifTrip.DecodedPixel` | fuzzers/libfuzzer_stb_image/stb_image.h:7007-7031 | The same for any pixel and in bytes of the picture: a transparent index, with alpha at most 128, leaves the four bytes as they were, any other gives them the color of its entry, red first |
| `GifPlain.DrawnPixel` | fuzzers/libfuzzer_stb_image/stb_image.h:7007-7031 | ... and so for every image that is loaded, complete or not; each drawn pixel is marked |
| `GifPlain.OtherPixel` | fuzzers/libfuzzer_stb_image/stb_image.h:7007-7031 | Pixels outside the rectangle keep their bytes |
| `GifPlain.DrawingOrder` | fuzzers/libfuzzer_stb_image/stb_image.h:7018-7030 | When each row of a rectangle is drawn, in closed form |
| `Gif.Gif.NextFrame` | fuzzers/libfuzzer_stb_image/stb_image.h:7152-7186 | Between two frames the marked pixels go back as the frame asks, to the picture before the last one or to the background; then the background is what is shown and nothing is marked |
| `Gif.Gif.LoadAndDispose` | fuzzers/libfuzzer_stb_image/stb_image.h:7152-7236 | An image with disposal 2 is undone by the next frame: whatever was painted, complete or not, every pixel is again what it was |
| `Gif.Gif.FillBackground` | fuzzers/libfuzzer_stb_image/stb_image.h:7238-7251 | After the first frame exactly the pixels it did not touch get the opaque background color |
| `GifRaster.BackgroundIsPaintedIff` | fuzzers/libfuzzer_stb_image/stb_image.h:7007-7251 | The background color is the color in which its index would be painted if and only if its red and blue are the same: one is copied in the order of the table, the other in the reverse order |
| `GifOffsets.OffsetsFitIff` | fuzzers/libfuzzer_stb_image/stb_image.h:7007-7224 | In a picture that passes the size test every byte offset of the cursor fits a signed 32-bit number while a rectangle is painted from top to bottom, and with passes if and only if that of the farthest row does: the second multiple of four from the last row on |
| `GifOffsets.PassesPastLimit` | fuzzers/libfuzzer_stb_image/stb_image.h:7130-7224 | A picture of 32767 by 16384 pixels passes the size test; from top to bottom its offsets fit, with passes they do not |
| `Gif.Gif.constructor` | fuzzers/libfuzzer_stb_image/stb_image.h:7130-7147 | Sets up the picture, the code table and the history that LoadImage works on |
| `Gif.Gif.ProcessGifRaster` | fuzzers/libfuzzer_stb_image/stb_image.h:7034-7113 | The indices painted and the status are exactly those of the string decoder, for every code size; the data ends after its terminator |
| `Gif.Gif.TakeCode` | fuzzers/libfuzzer_stb_image/stb_image.h:7080-7108 | Refuses a code for exactly the reason the decoder has; otherwise extends the table and paints the string of the code |
| `Gif.Gif.OutGifCode` | fuzzers/libfuzzer_stb_image/stb_image.h:6999-7031 | A code paints the string its prefix chain spells, first index first; prefixes are smaller than their codes, so the recursion ends |
| `Gif.LinkAdds` | fuzzers/libfuzzer_stb_image/stb_image.h:7085-7093 | The new entry spells the old string and the first index of the current one, also when the current code is the one being defined |
| `Gif.Gif.Define` | fuzzers/libfuzzer_stb_image/stb_image.h:7085-7093 | The table after the three assignments, whose comparison with the raised counter never holds |
| `Gif.Gif.Advance` | fuzzers/libfuzzer_stb_image/stb_image.h:7020-7030 | The byte offsets follow the cursor through the four passes, and never pass the farthest row tried on the way |
| `Gif.Gif.OutSuffix` | fuzzers/libfuzzer_stb_image/stb_image.h:7007-7031 | One more index is painted at the cursor, if that is in the rectangle |
| `Gif.Gif.PlaceFrame` | fuzzers/libfuzzer_stb_image/stb_image.h:7203-7224 | The offsets start at the first pixel of the rectangle, or below it if it has no columns |
| `Gif.Gif.SkipBlocks` | fuzzers/libfuzzer_stb_image/stb_image.h:7075-7079 | After the end code all remaining sub-blocks are passed over |
| `GifRaster.PaintedOnce` | fuzzers/libfuzzer_stb_image/stb_image.h:7007-7031 | Each pixel of the rectangle is painted once, with the index at its place in the order; surplus indices are dropped; nothing else changes |
| `GifRaster.TargetInjective` | fuzzers/libfuzzer_stb_image/stb_image.h:7007-7031 | The first w * h pixels drawn are different pixels of the rectangle, inside the picture |
| `GifRaster.TargetSurjective` | fuzzers/libfuzzer_stb_image/stb_image.h:7007-7031 | Every pixel of the rectangle is among them |
| `GifRaster.CursorAt` | fuzzers/libfuzzer_stb_image/stb_image.h:7018-7030 | The cursor visits the rows in the order of Appendix E of GIF89a, or from top to bottom, each from left to right |
| `GifRaster.RowOrderInjective` | fuzzers/libfuzzer_stb_image/stb_image.h:7024-7030 | The interlaced order of rows is a permutation of the rows |
| `GifRaster.RowNext` | fuzzers/libfuzzer_stb_image/stb_image.h:7024-7030 | The next row, also past passes that have no rows |
| `GifLzw.WidthIsStandardIff` | fuzzers/libfuzzer_stb_image/stb_image.h:7034-7108 | Of the minimum code sizes that the code accepts, exactly those from 2 to 11 give every code, in every state that any codes lead to, the least width that holds the next code, up to twelve bits |
| `GifLzw.FirstWidthIff` | fuzzers/libfuzzer_stb_image/stb_image.h:7034-7054 | For sizes 0 and 1 the first code is too narrow for the codes defined already, and for size 12 it is wider than twelve bits |
| `GifPlain.FirstState` | fuzzers/libfuzzer_stb_image/stb_image.h:7034-7050 | The table and the width before the first code and after each clear code |
| `GifPlain.CodeMeaning` | fuzzers/libfuzzer_stb_image/stb_image.h:7072-7108 | Which code is the clear code and which the end code, and which codes are refused with which failure |
| `GifPlain.CodeTaken` | fuzzers/libfuzzer_stb_image/stb_image.h:7080-7108 | What any other code paints, which string it adds, and when codes become wider |
| `GifPlain.SubBlock` | fuzzers/libfuzzer_stb_image/stb_image.h:7061-7070 | Sub-blocks are a length and so many bytes, up to a length of zero |
| `GifPlain.OnePixel` | fuzzers/libfuzzer_stb_image/stb_image.h:7034-7113 | The bytes 02 4C 01 00, the data of an image of one pixel, stand for the index 1 |
| `GifEncoding.DecodingUndoesEncoding` | fuzzers/libfuzzer_stb_image/stb_image.h:7034-7113 | What an encoder of Appendix F of GIF89a writes, in sub-blocks, decodes to what it was given if and only if it never writes more string codes without a clear code than the table of the decoder has room for; otherwise the decoder stops with too many codes after a proper prefix |
| `GifEncoding.BlankImage` | fuzzers/libfuzzer_stb_image/stb_image.h:7085-7093 | 7936 blank pixels, one code each and no clear code between them, are the first such image that is refused |
| `GifEncoding.PastLimit` | fuzzers/libfuzzer_stb_image/stb_image.h:7085-7093 | The code that comes when the table has no room is refused, whatever it is |
| `GifEncoding.CatchUp` | fuzzers/libfuzzer_stb_image/stb_image.h:7080-7093 | The decoder, one string behind the encoder, has the encoder's strings after each code |
| `GifEncoding.CodeFitsWidth` | fuzzers/libfuzzer_stb_image/stb_image.h:7051-7058 | Every code an encoder needs fits the width the decoder reads |
| `GifEncoding.OneByOneEncodes` | fuzzers/libfuzzer_stb_image/stb_image.h:7034-7113 | Every list of indices can be written |
| `GifEncoding.FramedRead` | fuzzers/libfuzzer_stb_image/stb_image.h:7051-7056 | Bytes framed in sub-blocks are read back |
| `Gnf.Converter.ConvertToGnf` | utils/gramatron/gnf_converter.py:19-42 | Whenever the conversion returns, every rule but the start rule is one terminal followed by nonterminals, every original name derives the same strings up to the `' '` token, the start name stands for the start symbol, and the grammar is the one that the passes compute |
| `ConversionEnds.ConversionEndsIff` | utils/gramatron/gnf_converter.py:19-42 | On a grammar without useless names the conversion returns a grammar if and only if no chain of unit rules is endless and the links between leading names, joined two by two, die out; otherwise it runs for ever, and never raises an exception |
| `ConversionEnds.ConversionFails` | utils/gramatron/gnf_converter.py:19-42 | On the other grammars: it raises an exception if unit removal does, runs for ever if unit removal does, and raises one for an empty rule if unit removal ends |
| `ConversionEnds.InNormalFormStays` | utils/gramatron/gnf_converter.py:19-42 | A result, or an exception, is the same for any larger number of rounds |
| `Gnf.Converter.Gnf` | utils/gramatron/gnf_converter.py:119-159 | The same for the normal-form loop, whose check that a rule does not start with its own left-hand side never fails |
| `Gnf.RemoveUnit` | utils/gramatron/gnf_converter.py:185-214 | Whenever unit removal returns, no unit rule is left, every name keeps its language exactly, and the result is that of the first round that leaves none |
| `Gnf.RemoveUnitRound` | utils/gramatron/gnf_converter.py:190-199 | A round replaces each unit rule, in place, by the rules of its name |
| `UnitRemoval.UnitRemovalEnds` | utils/gramatron/gnf_converter.py:185-214 | Unit removal returns a grammar if and only if no chain of unit rules is endless and every name on a chain has rules |
| `UnitRemoval.UnitRemovalRaises` | utils/gramatron/gnf_converter.py:185-214 | Given two rounds or more, it raises an exception if and only if a unit rule names something without a rule list or two unit rules lead to an empty one |
| `UnitRemoval.RoundsSuffice` | utils/gramatron/gnf_converter.py:185-214 | The length of the longest chain halves with every round, so a number of rounds is enough if its power of two exceeds that length |
| `UnitRemoval.SelfUnit` | utils/gramatron/gnf_converter.py:185-214 | With the one rule `A -> A` the loop never ends |
| `ConversionEnds.UnitFreeRules` | utils/gramatron/gnf_converter.py:185-214 | Unit removal leaves exactly the rules that are no unit rules and that chains of unit rules lead to |
| `Rounds.LinksAfter` | utils/gramatron/gnf_converter.py:125-144 | The leading names, or the unit rules, after a round are the chains of two before it |
| `Rounds.RoundStops` | utils/gramatron/gnf_converter.py:125-144 | A round raises an exception if and only if a name that it has to replace has no rule list |
| `Gnf.Converter.RemoveMixed` | utils/gramatron/gnf_converter.py:225-252 | Lifting terminals raises an exception if and only if there is an empty rule; otherwise it keeps every language exactly, keeps the absence of unit rules, and leaves terminals only in front |
| `Gnf.Converter.RemoveLeftRecursion` | utils/gramatron/gnf_converter.py:44-89 | Whenever the passes end, no rule starts with its own left-hand side and every name keeps its language up to the `' '` token |
| `NormalFormEnds.LeftRecursionRemovalEnds` | utils/gramatron/gnf_converter.py:44-89 | Left-recursion removal raises an exception exactly for an empty rule; otherwise two passes are enough, unless a name is its own unit rule: then no number of passes is |
| `NormalFormEnds.NoSelfRules` | utils/gramatron/gnf_converter.py:44-89 | After unit removal it always ends |
| `NormalFormEnds.NormalFormEnds` | utils/gramatron/gnf_converter.py:119-159 | The normal-form loop ends if every leading name has rules and no chain of leading names is endless; the length of the longest chain halves with every turn |
| `NormalFormEnds.WalkForEver` | utils/gramatron/gnf_converter.py:119-159 | It never ends if no name returns to itself in a number of steps that is a power of two, but some name returns in some number of steps: every turn halves the walks |
| `NormalFormEnds.LoopEndsIff` | utils/gramatron/gnf_converter.py:119-159 | Where no name returns in a power of two, the loop ends if and only if no chain of leading names is endless |
| `Circles.NormalFormEndsIff` | utils/gramatron/gnf_converter.py:119-159 | For every grammar without unit rules and useless names the loop ends if and only if its links, joined two by two without those from a name to itself, die out; otherwise it runs for ever. This includes the names that left-recursion removal touches or makes up |
| `Circles.ProductiveIsGrounded` | utils/gramatron/gnf_converter.py:119-159 | A name that derives some string is no useless name in that sense |
| `Circles.TwoDiesOut` | utils/gramatron/gnf_converter.py:119-159 | A circle of two names dies out, since it turns into left recursion, which is removed |
| `Circles.ThreeStays` | utils/gramatron/gnf_converter.py:119-159 | A circle of three does not: every turn only reverses it |
| `NormalFormEnds.CircularForEver` | utils/gramatron/gnf_converter.py:119-159 | One such grammar, without unit rules: A -> B X, B -> C X, C -> A X, C -> d, X -> x |
| `Gnf.Converter.RotateRound` | utils/gramatron/gnf_converter.py:57-75 | What one pass computes, in order, with the names it makes up |
| `Gnf.SubstituteRound` | utils/gramatron/gnf_converter.py:125-144 | A round replaces each rule with a leading name by one rule for each rule of that name |
| `Gnf.SubstitutionShape` | utils/gramatron/gnf_converter.py:125-144 | Substitution brings back neither unit rules nor terminals behind the first token |
| `Gnf.RotationShape` | utils/gramatron/gnf_converter.py:57-75 | Neither does left-recursion removal |
| `Gnf.CheckGnf` | utils/gramatron/gnf_converter.py:145-155 | The loop stops exactly if every rule starts with a terminal |
| `Gnf.TerminalExist` | utils/gramatron/gnf_converter.py:262-266 | The search for an existing name never finds one: it asks for a token of one character, which no quoted terminal is |
| `LeftRecursion.RotationPreserves` | utils/gramatron/gnf_converter.py:57-75 | Rotating left recursion into right recursion keeps every language up to the `' '` token, by turning left spines of derivations into right spines and back |
| `LeftRecursion.ForwardOne` | utils/gramatron/gnf_converter.py:57-75 | A derivation with the old rules becomes one with the new rules |
| `LeftRecursion.UnwindTail` | utils/gramatron/gnf_converter.py:57-75 | The parts that a tail derives go back, one by one, to the end of a left spine |
| `Substitution.SubstitutionPreserves` | utils/gramatron/gnf_converter.py:125-144 | Replacing a leading name by its rules keeps every language exactly |
| `Lifting.LiftingPreserves` | utils/gramatron/gnf_converter.py:230-251 | Giving terminals names keeps every language exactly |
| `Grammar.AddStart` | utils/gramatron/gnf_converter.py:41 | Adding a start rule under an unused name gives it the language of the start symbol and changes no other |
| `Automaton.BuildAutomaton` | utils/gramatron/construct_automata.py:27-47 | With a positive stack limit the construction always ends. Every state has, in order, one transition for each rule of its top whose stack is within the limit, and no other; the paths are exactly the runs within the limit, and a rule is dropped exactly if some state leads past it. Every path to an empty stack uses exactly the rules of a complete derivation, and its terminals are those of a word of the language, each as often; every derivation has such a path unless the automaton comes to a dropped rule of it. If all stacks that a leftmost derivation goes through have one order, the accepted runs are exactly the leftmost derivations that stay within the limit, rule by rule; if nothing was dropped, the order is kept exactly then, and the words are those of the language. Nothing is dropped if every stack of a derivation fits; it fails only on a missing rule list or a rule without terminal |
| `Automaton.BuildUnlimited` | utils/gramatron/construct_automata.py:27-47 | Without a limit, whenever the construction ends, paths and complete derivations use the same rules, paths and words have the same terminals, and the order and the language are kept under the same condition on the grammar |
| `Gramatron.GrammarToAutomaton` | utils/gramatron/construct_automata.py:27-47 | Both programs, one after the other: the accepting paths of the automaton put out, up to order and the `' '` token, the words of the input grammar and, if nothing was dropped, all of them; in their order if the stacks of the converted grammar have one order |
| `Gramatron.FromRulesBack` | utils/gramatron/construct_automata.py:158-176 | Taking the rules of a grammar in normal form apart loses nothing |
| `Automaton.Builder.TakeRule` | utils/gramatron/construct_automata.py:97-156 | One rule gives the next numbered transition of the state if its stack is within the limit, is dropped if not, and keeps every invariant of the construction |
| `Automaton.Builder.PrepTransitions` | utils/gramatron/construct_automata.py:84-156 | A state gets a transition, or a drop, for every rule of the top of its stack; it fails on a missing rule list and on a rule whose terminal has no text |
| `Automaton.Builder.MakeStack` | utils/gramatron/construct_automata.py:111-120 | The new stack is the symbols of the rule on top of what was below |
| `Automaton.Builder.FindState` | utils/gramatron/construct_automata.py:126-136 | A state with the same nonterminals in any order is found if there is one |
| `Layout.TransitionIff` | utils/gramatron/construct_automata.py:97-156 | A state has a transition for a rule of its top if and only if the stack that it leads to is within the limit, whatever happened at other states |
| `Layout.AllFitting` | utils/gramatron/construct_automata.py:97-156 | Where all stacks fit, a state has exactly the rules of its top, in their order and as often |
| `Layout.PathsAreRuns` | utils/gramatron/construct_automata.py:84-156 | The paths from a state are exactly the runs of rules, each at the top of the stack of the state that holds what is pending, that stay within the limit; also where rules were dropped |
| `Layout.Used` | utils/gramatron/construct_automata.py:84-156 | Every run that uses up what is pending labels a path to an empty stack, unless the automaton comes to a rule of it that is too large there |
| `Layout.OneOrderWithin` | utils/gramatron/construct_automata.py:84-156 | Where the grammar has one order, the accepted runs are exactly the leftmost derivations none of whose stacks passes the limit |
| `Paths.PathIsDerivation` | utils/gramatron/construct_automata.py:84-156 | A path to an empty stack can be rearranged into a leftmost derivation |
| `Paths.DerivationHasPath` | utils/gramatron/construct_automata.py:84-156 | The rules of a leftmost derivation can be taken, in some order, along a path |
| `Ordering.OneOrderIff` | utils/gramatron/construct_automata.py:126-136 | In a complete automaton the rules along every accepting path are a leftmost derivation as they stand if and only if no two stacks that leftmost derivations go through, one of which can finish, are the same when sorted but different |
| `Ordering.OneOrderLanguage` | utils/gramatron/construct_automata.py:126-136 | Then the words along the accepting paths are exactly the words of the language |
| `Ordering.OrderKeptIff` | utils/gramatron/construct_automata.py:126-136 | On any automaton, also with dropped rules, the order is kept if and only if every transition from which a path can finish leads to the stack itself, not to one that is the same when sorted |
| `Ordering.OrderedWords` | utils/gramatron/construct_automata.py:126-136 | Then every accepting path puts out a word of the language |
| `Ordering.SwappedHasTwoOrders` | utils/gramatron/construct_automata.py:126-136 | A grammar that does not meet the condition: S -> a A B, S -> b B A, A -> c, B -> d |
| `Ordering.OrderLost` | utils/gramatron/construct_automata.py:126-136 | Every complete automaton of that grammar has an accepting path that is no derivation, and one whose word, such as b c d, the grammar does not derive |
| `Automaton.StatesBounded` | utils/gramatron/construct_automata.py:126-145 | There are no more states than multisets within the limit |
| `Automaton.NothingTooLarge` | utils/gramatron/construct_automata.py:137-145 | If no stack that a leftmost derivation goes through passes the limit, nothing is dropped |
| `Reduction.Rearrange` | utils/gramatron/construct_automata.py:126-136 | Any order of expanding pending nonterminals can be rearranged into the leftmost one |
| `Reduction.SameTerminals` | utils/gramatron/construct_automata.py:126-136 | The same rules, in any order, put out the same terminals, each as often |
| `Reduction.LeftmostDerives` | utils/gramatron/construct_automata.py:158-176 | A complete leftmost run of rules in normal form derives the word of its terminals |
| `Reduction.DerivesLeftmost` | utils/gramatron/construct_automata.py:158-176 | ... and every derivation is such a run |

## Left out

- Inflate.DoZlib: completeness is stated for streams that end in a stored block or are followed by two bytes. Whether one whose last block is compressed and ends within the last two bytes is accepted depends on how the reader happened to refill, which the format does not know. Length symbols 286 and 287 and distance symbols 30 and 31, which RFC 1951 does not define, end with `Undefined`.
- Inflate.ZBuf.ParseZlib: stops with the status `Undefined` at an undefined length or distance symbol, where the code goes on with a length or distance of zero; after a distance of zero its output holds bytes that nothing has written.
- Inflate.ZBuf.ParseHuffmanBlock: does not model what the code does with length symbols 286 and 287 or distance symbols 30 and 31, which RFC 1951 does not define.
- Inflate.ZBuf.ReadMatch: reports those symbols with a status of its own, which the code does not have.
- Gnf.Converter.ConvertToGnf: shape and languages are about the runs that return, since the conversion need not; when it returns is said by `ConversionEnds.ConversionEndsIff` for grammars in which every name leads to a terminal.
- NormalFormEnds.NormalFormEnds: is one way only; `Circles.NormalFormEndsIff` is exact, for grammars in which every name leads to a terminal. What rotation makes of names that lead to none is not followed.
- Automaton.BuildAutomaton: with dropped rules the condition on the grammar is shown to be enough for the order; that it is needed is shown where nothing was dropped.
- Gif.Gif.LoadImage: its offsets are unbounded numbers, so it says nothing about the source for the pictures within 2^21 bytes of the size limit whose passes leave the range by `GifOffsets.OffsetsFitIff`.
- Gif.Gif.NextFrame: the picture before the last one is a parameter; the pointer that `stbi__load_gif_main` computes for it is not part of the model.
- Png.Png.CreateImage: writing through the null pointer of an interlaced picture that is too large is reported as the failure `NoBuffer`.
- The PNG chunk reader, palettes, transparency and color conversion: header plumbing around the reconstruction.
- The GIF header, extensions and color table parsing: the color table is a parameter.
- The JPEG decoder: its Huffman decoding repeats the argument for DEFLATE, and its transforms are fixed-size arithmetic.
- The other image formats, file and callback input, allocation failure and failure strings: input plumbing and foreign calls.
- Tokenizing rules with regular expressions, the ANTLR reader and JSON files: the model starts from token lists.
- `get_reachable`, `postprocess`, `postprocess1` and `create_graph`: unused or output formatting.
- Whether a terminal of a rule is marked as a regular expression: it does not influence the construction.
- The copy of the image library in `fuzzers/libfuzzer_stb_image_sugar`: it differs in braces only.
