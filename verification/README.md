# Verified models

A Dafny model of four parts of this repository, with proofs of what they promise. The command
`dafny verify dfyconfig.toml` verifies the project.

**The QR Code generator** (`external/qrcodegen/QrCode.cpp`). Segments are packed into a bit stream, the stream is padded,
split into blocks with Reed-Solomon check symbols, interleaved, placed on the grid in a zigzag, and masked with the pattern
of least penalty. The imperative parts are methods over arrays, buffers and a `QrCode` object, each proved against a
function; the main theorem, `Decoder.EndToEnd`, says that a reader given nothing but the grid recovers the segments, and
`Encoder.EncodeSegments` that none of the code's internal checks can fail on the way.
Modules: `Wrappers`, `Basics`, `GaloisField`, `Polynomial`, `ReedSolomon`, `BitStream`, `Segments`, `Tables`,
`DataStream`, `Interleave`, `Grids`, `Zigzag`, `Penalty`, `Patterns`, `Counting`, `Masking`, `Symbol`, `Encoder`,
`Decoder`. A byte is a record of eight booleans, so that the field arithmetic over GF(2^8) modulo 0x11D is proved by
algebra rather than by cases. Four more modules tie these functions to definitions that do not use them: `CarryLess` to
products of polynomials over GF(2), `SegmentFields` to the fields of a segment, `PenaltyMeaning` to stretches, patterns
and sets of modules, and `Figures` to the figures and tables of the standard. Terms follow ISO/IEC 18004:2015.

**The ancestry tool** (`src/blockchain_utilities/blockchain_ancestry.cpp`). The state object with its three caches, the
forward pass that can be stopped and resumed, and the backward work-list with its counters. `RingGraph` says what the
ancestry of a transaction is, by closure and by paths, and `WellFounded` says which chains the theorems are about: a ring
member was created before it is spent, and transactions outside the blocks' lists have no rings. Modules: `Crypto`,
`RingGraph`, `AncestrySpec`, `WorkList`, `Ancestry`, `AncestryRuns`, `ChainGrowth`, `DoublingChain`.

**The block store** (`src/blockchain_db/blockchain_db.cpp`, with the table operations of
`src/blockchain_db/lmdb/db_lmdb.cpp`). `BlockStore` says what each operation does to the tables, `BlockchainDb` does it
step by step, and `StoreUndo`, `StoreRuns` and `StoreCounts` prove what holds over all runs. `StoreMeaning` says it of
the chain's blocks and transactions alone: which blocks are taken, what is spent, and where each output stands.

**Scoped write batches** (`src/blockchain_db/locked_txn.h`, with the batch calls of `db_lmdb.cpp`). `BatchModel` is a state
machine over all well-nested uses of such objects, `LockedTxn` the objects themselves.

Four properties that one might expect do not hold of the code. Each has a lemma with a concrete input and an exact
condition:

- Removing a transaction does not always undo adding it (`StoreUndo.NotAlwaysRevertible`): adding decides by "some coinbase
  input and version 2", removal by "a single coinbase input and version at least 2". `StoreUndo.UndoTxExact` with
  `RevertibleExact` gives the condition.
- The list of outputs of amount zero need not be as long as the reported counts add up to (`StoreCounts.ListMayDiffer`,
  `ListMatchesExact`), and the cumulative count starts again at every block of major version below 4
  (`StoreCounts.CumRctMayRestart`, `CumRctExact`).
- The full-ancestry figure is not the number of ways once a 32-bit counter has wrapped, for which 33 transactions with
  two-member rings are enough (`DoublingChain.FiguresCanWrap`, `WorkList.FullAncestryExact`).
- A scoped object can end a batch that another one opened (`BatchModel.ForeignHappens`, `ForeignExact`): a commit that fails
  ends the batch but leaves the object active. Destructors and calls on the innermost object never do.

## Model

| member | source | states |
|---|---|---|
| `GaloisField.ReedSolomonMultiply` | external/qrcodegen/QrCode.cpp:772-782 | The shift-and-reduce loop computes the field product; its final check that the value fits a byte cannot fail |
| `GaloisField.MulComm` | external/qrcodegen/QrCode.cpp:772-782 | The product computed is commutative |
| `GaloisField.MulAssoc` | external/qrcodegen/QrCode.cpp:772-782 | The product computed is associative |
| `GaloisField.MulXorRight` | external/qrcodegen/QrCode.cpp:772-782 | The product distributes over exclusive or |
| `GaloisField.NoZeroDivisors` | external/qrcodegen/QrCode.cpp:772-782 | A product is zero only if a factor is: with the laws above, the bytes form a field |
| `GaloisField.PowUnit` | external/qrcodegen/QrCode.cpp:772-782 | Every non-zero byte has 255th power one |
| `GaloisField.PowTwoDistinct` | external/qrcodegen/QrCode.cpp:734-756 | The powers of two below the 255th, which are the roots of the generator, are all different |
| `CarryLess.MulReduces` | external/qrcodegen/QrCode.cpp:772-782 | The product of two bytes is what remains of their polynomial product over GF(2) on division by the nine bits 100011101 of 0x11D |
| `CarryLess.EighthPower` | external/qrcodegen/QrCode.cpp:772-782 | Two to the eighth is 0x1D |
| `ReedSolomon.ComputeDivisor` | external/qrcodegen/QrCode.cpp:734-756 | The array updated in place ends as the generator polynomial without its leading one; degrees outside 1..255 give the domain error |
| `ReedSolomon.RegisterRound` | external/qrcodegen/QrCode.cpp:746-754 | One round of the in-place update turns the right-aligned product of i linear factors into that of i+1 factors; in the last round exactly the leading one has dropped off |
| `ReedSolomon.GeneratorRoots` | external/qrcodegen/QrCode.cpp:734-756 | The generator of degree d is zero at every 2^i with i < d |
| `ReedSolomon.ComputeRemainder` | external/qrcodegen/QrCode.cpp:759-769 | The shifting loop computes the remainder function, for any data and any divisor; for an empty divisor it gives an empty result or the out-of-range exception |
| `ReedSolomon.DivisionIdentity` | external/qrcodegen/QrCode.cpp:759-769 | Schoolbook division: data times x^d is quotient times the monic divisor plus the remainder |
| `ReedSolomon.RemainderUnique` | external/qrcodegen/QrCode.cpp:759-769 | No other remainder of degree below d completes data times x^d, whatever quotient of whatever length goes with it |
| `ReedSolomon.CodewordRoots` | external/qrcodegen/QrCode.cpp:734-782 | For data of any length and every degree, data followed by its remainder is zero at every 2^i below the degree |
| `ReedSolomon.MinimumDistance` | external/qrcodegen/QrCode.cpp:734-782 | Two different codewords of at most 255 bytes differ in more than degree places |
| `ReedSolomon.UniqueDecoding` | external/qrcodegen/QrCode.cpp:734-782 | A received word within half the degree of a codeword is that near to no other |
| `ReedSolomon.CheckSymbolsUnique` | external/qrcodegen/QrCode.cpp:759-769 | The check symbols computed are the only ones that make a codeword |
| `BitStream.BitBuffer.AppendBits` | external/qrcodegen/QrCode.cpp:855-860 | Appends exactly the len low bits, most significant first, or refuses and changes nothing, exactly when len is outside 0..31 or the value does not fit |
| `BitStream.FromToBits` | external/qrcodegen/QrCode.cpp:855-860 | Reading the bits appended gives the value back |
| `BitStream.FromBitsConcat` | external/qrcodegen/QrCode.cpp:855-860 | Bits count by their position, the first most: a concatenation has the value of the front shifted by the length of the back, plus the back |
| `Segments.MakeBytes` | external/qrcodegen/QrCode.cpp:67-74 | The byte segment, or the length error for data longer than an int |
| `Segments.MakeNumeric` | external/qrcodegen/QrCode.cpp:77-97 | The streaming accumulator packs digits in groups of three; a character that is no digit gives the domain error |
| `Segments.MakeAlphanumeric` | external/qrcodegen/QrCode.cpp:100-120 | The same for pairs of characters of the alphanumeric set |
| `Segments.MakeEci` | external/qrcodegen/QrCode.cpp:141-156 | The three ECI ranges; a negative value or one of 1000000 and more gives the domain error |
| `Segments.TestAlphanumeric` | external/qrcodegen/QrCode.cpp:194-200 | True exactly if all characters are in the alphanumeric set |
| `Segments.TestNumeric` | external/qrcodegen/QrCode.cpp:203-210 | True exactly if all characters are digits |
| `Segments.MakeSegments` | external/qrcodegen/QrCode.cpp:123-138 | Chooses a mode whose encoder accepts the text, so no encoder throws on its content; the segments hold the text |
| `Segments.GroupsRoundTrip` | external/qrcodegen/QrCode.cpp:77-120 | Unpacking groups of any coding gives the symbols back and stops where they end, whatever follows |
| `Segments.EciRoundTrip` | external/qrcodegen/QrCode.cpp:141-156 | Every ECI value below 1000000 is read back |
| `Segments.PayloadRoundTrip` | external/qrcodegen/QrCode.cpp:67-156 | Whatever a factory packs is read back from the data bits and the recorded count |
| `Segments.PayloadLength` | external/qrcodegen/QrCode.cpp:67-156 | Payload lengths: 10 bits per three digits and 4 or 7 for the rest, 11 per pair and 6 for a single, 8 per byte, 8, 16 or 24 for an ECI value |
| `SegmentFields.NumericField` | external/qrcodegen/QrCode.cpp:77-97 | Bits 10g to 10g+9 hold 100a+10b+c for the g-th three digits; two digits left over hold 10a+b in seven bits and one a in four |
| `SegmentFields.AlphanumericField` | external/qrcodegen/QrCode.cpp:100-120 | Bits 11g to 11g+10 hold 45a+b for the g-th two characters; one left over is held in six bits |
| `SegmentFields.ByteField` | external/qrcodegen/QrCode.cpp:67-74 | Bits 8i to 8i+7 hold byte i |
| `SegmentFields.HeaderFields` | external/qrcodegen/QrCode.cpp:50-64 | The four mode bits, and the width of the count field by mode and version range |
| `SegmentFields.ChoiceShortest` | external/qrcodegen/QrCode.cpp:123-138 | The mode chosen gives a shorter segment, header included, than every other mode that can hold the text, at every version |
| `DataStream.GetTotalBits` | external/qrcodegen/QrCode.cpp:177-191 | The length of the stream that concatenation produces, or -1 exactly when a count does not fit its field or the length exceeds an int |
| `DataStream.Concatenate` | external/qrcodegen/QrCode.cpp:287-295 | Mode, count and data of the segments one after the other |
| `DataStream.Pad` | external/qrcodegen/QrCode.cpp:297-308 | Terminator, byte boundary and alternating padding bytes end exactly at the capacity; the check at line 304 and the checks inside the appends cannot fail |
| `DataStream.PaddedTerminates` | external/qrcodegen/QrCode.cpp:297-308 | The stream is kept and what follows stops a reader, for every length and capacity |
| `DataStream.PaddedAt` | external/qrcodegen/QrCode.cpp:297-308 | Bit by bit: the stream, at most four zero bits, zeros to the byte boundary, and then the bits of 0xEC and 0x11 in turn |
| `DataStream.PackCodewords` | external/qrcodegen/QrCode.cpp:310-313 | The bytes packed have the bits of the buffer |
| `DataStream.StreamRoundTrip` | external/qrcodegen/QrCode.cpp:287-313 | Parsing mode, count and payload up to the terminator gives the contents of all segments back, in order |
| `Interleave.LengthsAddUp` | external/qrcodegen/QrCode.cpp:529-565 | The block lengths add up to the data length and the rows to the number of raw codewords |
| `Interleave.SplitIntoBlocks` | external/qrcodegen/QrCode.cpp:541-551 | Cuts the data into blocks, computes their check symbols and pads the short ones |
| `Interleave.InterleaveBlocks` | external/qrcodegen/QrCode.cpp:553-561 | Row by row, leaving out the padding bytes of the short blocks |
| `Interleave.AddEccAndInterleave` | external/qrcodegen/QrCode.cpp:529-565 | The interleaved codewords, or the invalid-argument error for data of the wrong length; the check at line 562 cannot fail |
| `Interleave.BlockRoundTrip` | external/qrcodegen/QrCode.cpp:529-565 | De-interleaving recovers every block's data and check symbols: no padding byte is ever output |
| `Interleave.InterleaveRoundTrip` | external/qrcodegen/QrCode.cpp:529-565 | The recovered blocks concatenate to the input |
| `Interleave.BlockBounds` | external/qrcodegen/QrCode.cpp:534-551 | Where each block starts and ends: the first blocks have s data codewords, the last ones s+1 |
| `Interleave.DataPlace` | external/qrcodegen/QrCode.cpp:553-561 | Data codeword k < s of block j is codeword k times the number of blocks plus j |
| `Interleave.ExtraPlace` | external/qrcodegen/QrCode.cpp:553-561 | The last data codewords of the longer blocks follow, in order |
| `Interleave.CheckPlace` | external/qrcodegen/QrCode.cpp:553-561 | Check codeword k of block j stands k times the number of blocks plus j after the data |
| `Interleave.BlocksAreCodewords` | external/qrcodegen/QrCode.cpp:529-565 | Every recovered block is a Reed-Solomon codeword |
| `Interleave.DamageCorrectable` | external/qrcodegen/QrCode.cpp:529-565 | A damaged symbol that is near enough to one data sequence in every block is near enough to no other |
| `Zigzag.ScanBijective` | external/qrcodegen/QrCode.cpp:568-593 | For every odd size of at least 7, the scan visits each cell outside column 6 exactly once and no other |
| `Zigzag.ScanOrder` | external/qrcodegen/QrCode.cpp:572-581 | The order of the scan: two columns at a time from the right, past column 6, upwards and downwards in turn, the right module of a row first |
| `Zigzag.PlaceKeeps` | external/qrcodegen/QrCode.cpp:568-593 | Function modules and cells not visited keep their colour |
| `Zigzag.PlaceRead` | external/qrcodegen/QrCode.cpp:568-593 | Reading in the same order gives the bits placed, followed by what the left-over cells held |
| `Zigzag.UnplacedZero` | external/qrcodegen/QrCode.cpp:591-592 | All bits find a place exactly if there are enough free cells, so this is when the check passes |
| `Counting.ScanSize` | external/qrcodegen/QrCode.cpp:568-593 | The scan has size times (size - 1) cells |
| `Counting.FunctionCovered` | external/qrcodegen/QrCode.cpp:416-513 | Every function module outside column 6 lies in one of the rectangles that the patterns of a version are cut into |
| `Counting.FunctionArea` | external/qrcodegen/QrCode.cpp:711-724 | The areas of these rectangles and the number of raw data modules add up to the scan, for every version |
| `Counting.CoveredIsFunction` | external/qrcodegen/QrCode.cpp:416-513 | Conversely the rectangles hold nothing but function modules outside column 6 |
| `Counting.FunctionRectsApart` | external/qrcodegen/QrCode.cpp:416-513 | The rectangles do not overlap, for any version |
| `Counting.FreeModulesExact` | external/qrcodegen/QrCode.cpp:568-593 | For every version the scan finds exactly as many free modules as getNumRawDataModules says: the check at line 591 never fails, and 0 to 7 remainder bits are left |
| `Penalty.FinderPenaltyAddHistory` | external/qrcodegen/QrCode.cpp:806-811 | Shifts the array by one and puts the run in front, with the border added to the first |
| `Penalty.FinderPenaltyCountPatterns` | external/qrcodegen/QrCode.cpp:785-792 | Counts the two orientations of the finder-like pattern in the history, or throws for a run over three sides |
| `Penalty.FinderPenaltyTerminateAndCount` | external/qrcodegen/QrCode.cpp:795-803 | Closes the line with its white border and counts |
| `Penalty.RunsExpand` | external/qrcodegen/QrCode.cpp:620-666 | The run lengths of a line expand to the line |
| `Penalty.BorderedRunsCorrect` | external/qrcodegen/QrCode.cpp:620-666 | The runs that go into the history are the run-length encoding of the line between two white borders |
| `Penalty.BorderedRunsUnique` | external/qrcodegen/QrCode.cpp:620-666 | No other list of positive run lengths encodes the bordered line |
| `Penalty.CountIsPatterns` | external/qrcodegen/QrCode.cpp:785-792 | The seven most recent runs decide exactly the patterns that end at the current run |
| `Penalty.ScanLine` | external/qrcodegen/QrCode.cpp:620-666 | Streaming over a line gives L-2 for each maximal run of length L of at least 5, and 40 for each finder-like pattern of the bordered run-length encoding; the throw at line 788 never fires |
| `Penalty.ImbalanceLeast` | external/qrcodegen/QrCode.cpp:679-690 | The closed formula gives the least k for which the dark share is within k+1 steps of five percent |
| `Penalty.GetPenaltyScore` | external/qrcodegen/QrCode.cpp:620-692 | The score is the sum of the line penalties of all rows and columns, 3 for each 2x2 block of one colour and 10 for each step of imbalance |
| `PenaltyMeaning.RunCostsMean` | external/qrcodegen/QrCode.cpp:620-666 | The costs of runs, on the modules: three points for the first five modules of a stretch of one colour and one for every further module |
| `PenaltyMeaning.LineMeans` | external/qrcodegen/QrCode.cpp:620-666 | What a line costs, on its modules: its stretches, and forty points for each start of a 1:1:3:1:1 pattern with four units of light on one side and one on the other, in the line between light borders |
| `PenaltyMeaning.AreasMean` | external/qrcodegen/QrCode.cpp:669-685 | The two area counts are the sizes of the set of 2x2 blocks of one colour and of the set of dark modules |
| `PenaltyMeaning.ScoreMeans` | external/qrcodegen/QrCode.cpp:620-692 | The score as the cost of the rows, of the rows of the transposed grid, of the blocks and of the imbalance |
| `PenaltyMeaning.TransposedScore` | external/qrcodegen/QrCode.cpp:620-692 | Exchanging rows and columns does not change the score |
| `Penalty.ScoreBound` | external/qrcodegen/QrCode.cpp:338-346 | The score of any symbol stays below the initial minimum, so the first trial is always taken |
| `Patterns.AlignInside` | external/qrcodegen/QrCode.cpp:695-708 | Every alignment pattern lies inside the symbol |
| `Patterns.FunctionMapAnyLevel` | external/qrcodegen/QrCode.cpp:416-442 | Which modules are function modules depends on the version alone |
| `Patterns.FormatIsFunction` | external/qrcodegen/QrCode.cpp:445-470 | All format modules are function modules, so drawing them touches no codeword |
| `Patterns.TimingIsFunction` | external/qrcodegen/QrCode.cpp:416-421 | Column 6 and row 6 are function modules throughout |
| `CarryLess.FormatWordCode` | external/qrcodegen/QrCode.cpp:445-455 | A format word, with 0x5412 taken off, begins with level and mask and is a multiple of the polynomial 0x537 |
| `CarryLess.VersionWordCode` | external/qrcodegen/QrCode.cpp:473-482 | A version word begins with the version and is a multiple of the polynomial 0x1F25 |
| `Figures.FinderFigure` | external/qrcodegen/QrCode.cpp:496-505 | The three corners of every finished symbol show the finder with its light border, as drawn module by module |
| `Figures.TimingFigure` | external/qrcodegen/QrCode.cpp:416-421 | Between the finders row 6 and column 6 are dark at even places and light at odd ones |
| `Figures.CentresTabulated` | external/qrcodegen/QrCode.cpp:695-708 | The alignment positions of all forty versions are those of the standard's table |
| `Figures.AlignmentFigure` | external/qrcodegen/QrCode.cpp:508-513 | At every pair of these positions outside the finders' corners a finished symbol shows the alignment pattern, module by module |
| `Figures.FormatFigure` | external/qrcodegen/QrCode.cpp:457-469 | Both copies carry all fifteen bits of the format word, on the listed cells, and the module at (8, size-8) is dark |
| `Figures.VersionFigure` | external/qrcodegen/QrCode.cpp:485-493 | From version 7 on both copies carry all eighteen bits of the version word |
| `Masking.MaskTwice` | external/qrcodegen/QrCode.cpp:596-617 | Applying a mask twice restores the grid |
| `Figures.MaskTiles` | external/qrcodegen/QrCode.cpp:603-613 | Each of the eight masks inverts the modules marked on its own tile, repeated over the symbol |
| `Masking.MaskDrawCommute` | external/qrcodegen/QrCode.cpp:596-617 | Masking does not touch function modules: it commutes with drawing them |
| `Masking.TrialRestores` | external/qrcodegen/QrCode.cpp:338-350 | A trial on a symbol that still shows another mask's format gives exactly the symbol finished with its own mask, and undoing it leaves only the format modules changed |
| `Symbol.QrCode.constructor` | external/qrcodegen/QrCode.cpp:320-331 | A blank symbol of the version's size |
| `Symbol.QrCode.SetFunctionModule` | external/qrcodegen/QrCode.cpp:516-521 | Sets one module and marks it, and no other |
| `Symbol.QrCode.DrawFinderPattern` | external/qrcodegen/QrCode.cpp:496-505 | Draws the finder pattern, clipped at the symbol's edge |
| `Symbol.QrCode.DrawAlignmentPattern` | external/qrcodegen/QrCode.cpp:508-513 | Draws the alignment pattern |
| `Symbol.QrCode.DrawFormatBits` | external/qrcodegen/QrCode.cpp:445-470 | Draws both copies of the format word and the dark module, and nothing else |
| `Symbol.QrCode.DrawVersion` | external/qrcodegen/QrCode.cpp:473-493 | Draws both copies of the version word from version 7 on |
| `Symbol.QrCode.GetAlignmentPatternPositions` | external/qrcodegen/QrCode.cpp:695-708 | The alignment positions, built from the far end |
| `Symbol.QrCode.DrawFunctionPatterns` | external/qrcodegen/QrCode.cpp:416-442 | Draws the function patterns over a blank symbol and marks exactly their modules |
| `Symbol.QrCode.DrawCodewords` | external/qrcodegen/QrCode.cpp:568-593 | The zigzag loops place the bits along the scan; the result is the logic error exactly if free cells run out, the invalid-argument error exactly for a wrong length |
| `Symbol.QrCode.ApplyMask` | external/qrcodegen/QrCode.cpp:596-617 | Inverts exactly the modules of the mask that are no function modules; a mask outside 0..7 gives the domain error |
| `Symbol.QrCode.ChooseMask` | external/qrcodegen/QrCode.cpp:338-352 | After the eight trials the mask is the lowest-numbered of least penalty, and only format modules differ from before |
| `Symbol.QrCode.SettleMask` | external/qrcodegen/QrCode.cpp:338-356 | Whether or not trials went before, the grid is the one that the settled mask gives |
| `Symbol.QrCode.Create` | external/qrcodegen/QrCode.cpp:320-360 | The whole constructor: exactly when it ends in which exception, never in a logic error, and otherwise a symbol whose grid is determined by version, level, data and mask |
| `Symbol.AutomaticMaskIsBest` | external/qrcodegen/QrCode.cpp:338-356 | The automatically masked symbol equals, module for module, the explicitly built one of least penalty and lowest number |
| `Encoder.FindVersion` | external/qrcodegen/QrCode.cpp:260-279 | The least version in the range that holds the segments, or none exactly if no version holds them; the check at line 279 cannot fail |
| `Encoder.BoostLevel` | external/qrcodegen/QrCode.cpp:281-285 | Never below the level asked for, and with boosting the highest that still fits |
| `Encoder.MakeData` | external/qrcodegen/QrCode.cpp:287-313 | The data codewords carry the padded stream of the segments; the checks at lines 295, 300 and 304 cannot fail |
| `Encoder.EncodeSegments` | external/qrcodegen/QrCode.cpp:255-317 | The invalid-argument error exactly for bad arguments, data_too_long exactly if no version in the range holds the segments, no other error; else a symbol of the least version and right level that holds them |
| `Encoder.EncodeText` | external/qrcodegen/QrCode.cpp:243-246 | The symbol of the text's segments at the least version, with its errors |
| `Encoder.EncodeBinary` | external/qrcodegen/QrCode.cpp:249-252 | The symbol of the bytes at the least version, with its errors |
| `Decoder.FormatRoundTrip` | external/qrcodegen/QrCode.cpp:445-470 | Level and mask are read off any finished symbol |
| `Decoder.CodewordsRoundTrip` | external/qrcodegen/QrCode.cpp:529-617 | Unmasking and reading along the scan outside the function modules gives the interleaved codewords |
| `Decoder.DecodeFinished` | external/qrcodegen/QrCode.cpp:320-360 | From the grid alone, unmasking, reading, de-interleaving and parsing give what parsing the data codewords gives |
| `Decoder.EndToEnd` | external/qrcodegen/QrCode.cpp:255-360 | For every list of factory-made segments, whenever encoding returns a symbol, a reader that is given nothing but its grid recovers exactly those segments |
| `Ancestry.AncestryState.constructor` | src/blockchain_utilities/blockchain_ancestry.cpp:131-140 | An empty state |
| `Ancestry.AncestryState.GetBlockFromHeight` | src/blockchain_utilities/blockchain_ancestry.cpp:223-244 | Answers as the database does under every cache setting, and keeps the caches in agreement with it, although the resize truncates and leaves holes |
| `Ancestry.AncestryState.GetTransaction` | src/blockchain_utilities/blockchain_ancestry.cpp:246-273 | The same for transactions |
| `Ancestry.AncestryState.GetOutputTxid` | src/blockchain_utilities/blockchain_ancestry.cpp:275-328 | The same for the creator of an output, found by scanning the miner outputs and then the block's transactions |
| `Ancestry.AncestryState.CacheOutput` | src/blockchain_utilities/blockchain_ancestry.cpp:302-323 | Stores the creator found, if outputs are cached |
| `Ancestry.AncestryState.AddAncestry` | src/blockchain_utilities/blockchain_ancestry.cpp:195-221 | Adds a set of ancestors to one transaction's entry and changes no other |
| `Ancestry.AncestryState.ProcessTx` | src/blockchain_utilities/blockchain_ancestry.cpp:530-587 | Fails exactly if the transaction or the creator of a ring member is not found; otherwise, if the creators' entries are complete, so is this one afterwards; no false ancestor is ever added |
| `Ancestry.AncestryState.ProcessBlock` | src/blockchain_utilities/blockchain_ancestry.cpp:510-592 | Extends completeness by one block, with or without the coinbase transaction |
| `Ancestry.AncestryState.CacheBlock` | src/blockchain_utilities/blockchain_ancestry.cpp:519-523 | The forward pass's own write to the block cache keeps it in agreement |
| `Ancestry.AncestryState.Refresh` | src/blockchain_utilities/blockchain_ancestry.cpp:502-596 | From any consistent state, stopped or failing anywhere, the state stays consistent; the recorded height is that of the block at which it stopped; unstopped it ends with the whole ancestry of every transaction of the chain |
| `Ancestry.AncestryState.PassOn` | src/blockchain_utilities/blockchain_ancestry.cpp:690-699 | The backward pass's writes add no false ancestor and keep completeness |
| `Ancestry.AncestryState.Query` | src/blockchain_utilities/blockchain_ancestry.cpp:657-706 | Terminates; when it finishes, the counters' keys are the ancestors, each counter is the number of ways modulo 2^32 and one more transaction than there are ways has been taken from the queue; it fails exactly if something on the way is missing |
| `AncestrySpec.MemberClosure` | src/blockchain_utilities/blockchain_ancestry.cpp:566-582 | A ring member and its creator's ancestors are ancestors |
| `AncestrySpec.CreatorsDone` | src/blockchain_utilities/blockchain_ancestry.cpp:503-596 | When everything earlier in the chain is complete, the creators of a transaction's ring members are |
| `AncestrySpec.StaysComplete` | src/blockchain_utilities/blockchain_ancestry.cpp:195-221 | A complete entry cannot grow: reprocessing a block changes nothing |
| `WorkList.BalanceMember` | src/blockchain_utilities/blockchain_ancestry.cpp:686-701 | Counting a member and queueing its creator keeps the balance: every way has been counted or starts in the queue or in the members still to be read |
| `WorkList.BalancePop` | src/blockchain_utilities/blockchain_ancestry.cpp:665-679 | Taking a transaction from the queue keeps the balance, and the total of one plus the ways over the queue goes down by one |
| `WorkList.BalanceEnd` | src/blockchain_utilities/blockchain_ancestry.cpp:661-706 | With an empty queue the counters are the numbers of ways modulo 2^32 |
| `WorkList.AddAncestor` | src/blockchain_utilities/blockchain_ancestry.cpp:173-180 | Starts a counter at one or increments it as an unsigned int |
| `WorkList.SumIsTotal` | src/blockchain_utilities/blockchain_ancestry.cpp:182-188 | The counters add up to the true total exactly if none has wrapped around |
| `WorkList.GetFullAncestry` | src/blockchain_utilities/blockchain_ancestry.cpp:182-188 | The sum of the counters in an unsigned 64-bit variable |
| `WorkList.FullAncestryExact` | src/blockchain_utilities/blockchain_ancestry.cpp:173-188 | The figure reported is the number of ways if and only if no ancestor is reached in 2^32 ways or more and there are fewer than 2^64 ways in all |
| `DoublingChain.WaysDouble` | src/blockchain_utilities/blockchain_ancestry.cpp:661-704 | On a chain whose k-th transaction has one ring with the two outputs of its predecessor there are 2^(k-1) ways to the first output and 3 * 2^(k-1) - 2 ways in all |
| `DoublingChain.FiguresCanWrap` | src/blockchain_utilities/blockchain_ancestry.cpp:173-188 | With 33 such transactions the counter of the first output is zero and the figure reported is not the number of ways |
| `DoublingChain.ReportsWrongFigures` | src/blockchain_utilities/blockchain_ancestry.cpp:657-706 | The backward pass, started on that chain with any cache flags, finishes with these figures |
| `AncestryRuns.RunAll` | src/blockchain_utilities/blockchain_ancestry.cpp:503-706 | Any sequence of forward and backward runs, with any cache flags and any stops, keeps the state consistent |
| `AncestryRuns.CompleteMeansClosure` | src/blockchain_utilities/blockchain_ancestry.cpp:503-596 | A completed map holds exactly the transitive closure for every transaction, coinbase ones included |
| `AncestryRuns.NewConsistent` | src/blockchain_utilities/blockchain_ancestry.cpp:131-139 | A new state is consistent with any chain |
| `AncestryRuns.ResumeHarmless` | src/blockchain_utilities/blockchain_ancestry.cpp:502-596 | From a new state, any runs stopped and resumed anywhere, followed by a refresh to the end, leave the map that one uninterrupted refresh leaves; both succeed if everything is found |
| `AncestryRuns.RefreshThenQuery` | src/blockchain_utilities/blockchain_ancestry.cpp:503-706 | Both directions name the same ancestors, which are the ends of the paths of ring members; each counter is the number of paths to its ancestor modulo 2^32 |
| `RingGraph.PathsCounted` | src/blockchain_utilities/blockchain_ancestry.cpp:661-706 | The number of ways is the number of paths, in all and for each ancestor |
| `RingGraph.PathsExact` | src/blockchain_utilities/blockchain_ancestry.cpp:661-706 | The list of paths holds every path and nothing else |
| `RingGraph.ClosureIsPaths` | src/blockchain_utilities/blockchain_ancestry.cpp:503-596 | The ancestors of a transaction are what paths of ring members reach |
| `RingGraph.CreatorExact` | src/blockchain_utilities/blockchain_ancestry.cpp:275-328 | The search names a transaction if and only if the output is stored, its block parses, and the transaction is the coinbase one with the key before any other kind of target, or the first one of the list with the key after parsed ones without it, no coinbase output having the key |
| `RingGraph.CreatorSound` | src/blockchain_utilities/blockchain_ancestry.cpp:275-328 | The transaction named has the output |
| `RingGraph.CreatorComplete` | src/blockchain_utilities/blockchain_ancestry.cpp:275-328 | With coinbase outputs to other keys only and all transactions parsed, the first transaction with the key is named |
| `RingGraph.FlattenAt` | src/blockchain_utilities/blockchain_ancestry.cpp:566-570 | The ring members of a transaction are all members of all rings, each listed once under its ring's amount |
| `ChainGrowth.StateKept` | src/blockchain_utilities/blockchain_ancestry.cpp:503-596 | A state saved on one chain is consistent for every longer chain: caches, ancestry map and height |
| `ChainGrowth.ClosureSettled` | src/blockchain_utilities/blockchain_ancestry.cpp:503-596 | A transaction whose ancestry has been found throughout gets no new ancestors when the chain grows |
| `BlockchainDb.BlockchainDb.AddTransaction` | src/blockchain_db/blockchain_db.cpp:182-248 | Does what the transaction specification says, step by step, with the error of the first step that fails |
| `BlockchainDb.BlockchainDb.AddInputs` | src/blockchain_db/blockchain_db.cpp:205-221 | Spends the key images in order, notices a coinbase input, and refuses unknown inputs and images spent already |
| `BlockchainDb.BlockchainDb.AddAllOutputs` | src/blockchain_db/blockchain_db.cpp:225-246 | Stores the outputs in order, those of a version 2 coinbase under amount zero, and collects their indices |
| `BlockchainDb.BlockchainDb.AddBlock` | src/blockchain_db/blockchain_db.cpp:250-307 | The miner transaction, the others under their listed hashes, the count of RingCT outputs and the block record, with the error of the first step that fails |
| `BlockchainDb.BlockchainDb.AddTransactions` | src/blockchain_db/blockchain_db.cpp:280-292 | Adds the transactions and counts their outputs of amount zero |
| `BlockchainDb.BlockchainDb.PopBlock` | src/blockchain_db/blockchain_db.cpp:314-329 | Removes the top block and its transactions, the last one first, and gives them in that order |
| `BlockchainDb.BlockchainDb.RemoveTransaction` | src/blockchain_db/blockchain_db.cpp:336-350 | Removes the key images and the records of a transaction |
| `BlockchainDb.BlockchainDb.AddSpentKey` | src/blockchain_db/lmdb/db_lmdb.cpp:1255-1270 | Fails exactly if the image is spent already |
| `BlockchainDb.BlockchainDb.RemoveKeys` | src/blockchain_db/blockchain_db.cpp:340-346 | Removes exactly the key images of the inputs |
| `BlockchainDb.BlockchainDb.AddTransactionData` | src/blockchain_db/lmdb/db_lmdb.cpp:890-971 | Stores a transaction under the next id unless its hash is stored already |
| `BlockchainDb.BlockchainDb.AddOutput` | src/blockchain_db/lmdb/db_lmdb.cpp:1050-1115 | Appends an output to the global list and to that of its amount, and gives its index there |
| `BlockchainDb.BlockchainDb.AddTxAmountOutputIndices` | src/blockchain_db/lmdb/db_lmdb.cpp:1117-1138 | Stores the output indices of a transaction at the end of their table |
| `BlockchainDb.BlockchainDb.RemoveTxOutputs` | src/blockchain_db/lmdb/db_lmdb.cpp:1140-1161 | Removes the outputs of a transaction, the last one first, under the amounts that its own test gives; fails if there are too few indices |
| `BlockchainDb.BlockchainDb.RemoveOutput` | src/blockchain_db/lmdb/db_lmdb.cpp:1163-1199 | Removes the output with the given index among those of an amount, and an amount with its last output |
| `BlockchainDb.BlockchainDb.AppendRecord` | src/blockchain_db/lmdb/db_lmdb.cpp:775-851 | Appends the block record unless the hash is known or the parent is not the top block; from major version 4 on the count of RingCT outputs continues that of the previous block |
| `StoreUndo.SpentKeysExact` | src/blockchain_db/blockchain_db.cpp:205-221 | Spending succeeds exactly if all inputs are of known types and no image is spent already or twice |
| `StoreUndo.UndoOutput` | src/blockchain_db/lmdb/db_lmdb.cpp:1050-1199 | Removing an output just added restores the tables |
| `StoreUndo.UndoTx` | src/blockchain_db/blockchain_db.cpp:182-248 | Removing a transaction undoes adding it, if storing and removal look under the same amounts |
| `StoreUndo.UndoTxExact` | src/blockchain_db/blockchain_db.cpp:182-350 | And only then: it undoes adding if and only if the two tests agree on where the outputs are |
| `StoreUndo.RevertibleExact` | src/blockchain_db/lmdb/db_lmdb.cpp:1155-1160 | They agree exactly if both treat the transaction as coinbase, or neither does, or all amounts are zero |
| `StoreUndo.NotAlwaysRevertible` | src/blockchain_db/lmdb/db_lmdb.cpp:1155-1160 | A version 2 transaction with a coinbase input and another one, whose removal does not restore the tables |
| `StoreUndo.OrdinaryRevertible` | src/blockchain_db/lmdb/db_lmdb.cpp:1155-1160 | They always agree for transactions without a coinbase input |
| `StoreUndo.UndoBlock` | src/blockchain_db/blockchain_db.cpp:250-329 | Popping undoes adding a block and gives its transactions reversed, if and only if the miner transaction can be undone, given that the others can |
| `StoreRuns.RunTracks` | src/blockchain_db/blockchain_db.cpp:250-329 | After any run of additions and pops, failed ones rolled back, the tables are those that the remaining chain alone gives |
| `StoreRuns.PopIsExact` | src/blockchain_db/blockchain_db.cpp:314-329 | In every such state with a block, a pop succeeds, gives the last block with its transactions reversed and leaves the tables of the shorter chain |
| `StoreRuns.RunAgrees` | src/blockchain_db/blockchain_db.cpp:182-329 | In every reachable state the spent keys are the chain's key images, each spent once; every recorded output index leads to its own output and back; the list of every amount has the length that the chain's outputs give it; and no table holds anything else |
| `StoreRuns.EntryIsRecorded` | src/blockchain_db/blockchain_db.cpp:225-247 | Whatever stands in the list of any amount is the recorded output of a stored transaction |
| `StoreRuns.ReplayAgrees` | src/blockchain_db/blockchain_db.cpp:250-307 | The same for every chain added to an empty store |
| `StoreMeaning.NoDoubleSpend` | src/blockchain_db/blockchain_db.cpp:205-221 | In every reachable state an image is among the spent keys if and only if an input of the chain spends it, and no two inputs spend the same one |
| `StoreMeaning.RunTakes` | src/blockchain_db/blockchain_db.cpp:250-307 | In every reachable state the chain is linked, without repeated block hashes, and a block is taken if and only if it stands on the top, its hash and its transactions' hashes are new, its key images are unspent and different, and its outputs can be stored |
| `StoreMeaning.ReplayTaken` | src/blockchain_db/blockchain_db.cpp:250-307 | A chain can be added to an empty store if and only if each of its blocks can be added to those before it |
| `StoreMeaning.BlockTaken` | src/blockchain_db/lmdb/db_lmdb.cpp:783-835 | The block record is appended if and only if the hash is new and the parent is the top block, or the store is empty and the major version below 4 |
| `StoreMeaning.OutputPlace` | src/blockchain_db/blockchain_db.cpp:225-247 | In every reachable state each output of each transaction stands in the list of its amount under the index kept for it: a version 2 transaction with a coinbase input under amount zero with the commitment to its amount, any other under its own amount, with its own commitment if that is zero and without one if not |
| `StoreCounts.ListMatchesExact` | src/blockchain_db/blockchain_db.cpp:275-292 | When only miner transactions have a coinbase input, the list of amount zero is as long as the reported counts add up to, at every height, if and only if every miner transaction is counted right |
| `StoreCounts.MinerZeros` | src/blockchain_db/blockchain_db.cpp:275-279 | A miner transaction is counted right exactly if it is of version 2 and either has a coinbase input or only outputs of amount zero, or of another version and has none of amount zero |
| `StoreCounts.OldVersionsCounted` | src/blockchain_db/lmdb/db_lmdb.cpp:1067-1071 | Miner transactions of version 0 or 1 are always counted right, because an output of amount zero is refused |
| `StoreCounts.ListMayDiffer` | src/blockchain_db/blockchain_db.cpp:275-292 | A version 3 coinbase for which the two differ |
| `StoreCounts.CumRctExact` | src/blockchain_db/lmdb/db_lmdb.cpp:826-835 | The cumulative count is the running total at every height if and only if nothing has been counted before a block of major version below 4 |
| `StoreCounts.CumRctMayRestart` | src/blockchain_db/lmdb/db_lmdb.cpp:826-835 | Two blocks for which it is not |
| `StoreCounts.UsualBlockSane` | src/blockchain_db/lmdb/db_lmdb.cpp:1155-1160 | Blocks whose miner transaction has a single coinbase input and version at most 2, and whose other transactions have none, meet what the run theorems ask |
| `LockedTxn.BatchDb.BatchStart` | src/blockchain_db/lmdb/db_lmdb.cpp:3837-3878 | Opens a batch and says so, leaves the one in progress alone, or throws and changes nothing |
| `LockedTxn.BatchDb.BatchStop` | src/blockchain_db/lmdb/db_lmdb.cpp:3917-3944 | Commits, or discards and throws; the batch is over either way; throws without one |
| `LockedTxn.BatchDb.BatchAbort` | src/blockchain_db/lmdb/db_lmdb.cpp:3946-3967 | Discards the batch; throws without one |
| `LockedTxn.LockedTxn.constructor` | src/blockchain_db/locked_txn.h:50-53 | The object's fields |
| `LockedTxn.LockedTxn.Open` | src/blockchain_db/locked_txn.h:43-46 | Starts a batch unless there is one and records whether this object opened it; if the start throws there is no object and nothing has changed |
| `LockedTxn.LockedTxn.Commit` | src/blockchain_db/locked_txn.h:47-47 | Only the object that opened a batch and is active stops it; after an exception it stays active |
| `LockedTxn.LockedTxn.Abort` | src/blockchain_db/locked_txn.h:48-48 | The same for aborting |
| `LockedTxn.LockedTxn.Destroy` | src/blockchain_db/locked_txn.h:49-49 | The destructor aborts |
| `LockedTxn.PerformAll` | src/blockchain_db/locked_txn.h:41-54 | Any well-nested use of the objects does what the state machine does |
| `BatchModel.RunKeeps` | src/blockchain_db/locked_txn.h:41-54 | Every well-nested run, with repeated calls and failing commits, keeps the invariant on owners, flags, log and data |
| `BatchModel.EndedOnce` | src/blockchain_db/locked_txn.h:41-54 | At most one stop, failed stop or abort for each batch opened, and at most one successful one by each object |
| `BatchModel.AfterOutermost` | src/blockchain_db/locked_txn.h:41-54 | After the outermost destructor no batch is open, every batch opened has been ended, and nothing is pending |
| `BatchModel.BatchOutcome` | src/blockchain_db/locked_txn.h:41-54 | In every well-nested run a batch is all or nothing: what was written last if the operation that ends it is a commit that succeeds, otherwise the data from before the batch |
| `BatchModel.OutermostOutcome` | src/blockchain_db/locked_txn.h:41-54 | After the outermost destructor the database is the committed state or the snapshot from before the last batch, if nothing is written after that batch |
| `BatchModel.OutsideBatch` | src/blockchain_db/locked_txn.h:41-54 | Without a batch in progress only writes change the durable data |
| `BatchModel.BatchesInOrder` | src/blockchain_db/locked_txn.h:41-54 | In every well-nested run each batch is opened, written to and ended by an end of its own, with nothing else in between, or is in progress; with no object left, each has been ended |
| `BatchModel.BatchInLog` | src/blockchain_db/locked_txn.h:41-54 | In terms of the log: from its start to its end a batch leaves its last write if it was stopped, and otherwise what was durable before it |
| `BatchModel.DurableDuringBatch` | src/blockchain_db/lmdb/db_lmdb.cpp:3837-3967 | From the operation that opens a batch to its end the durable data is that from before it, whatever is called on whichever object, and a reader sees what was written last |
| `BatchModel.InnermostOwns` | src/blockchain_db/locked_txn.h:47-49 | A destructor, like any call on the innermost object, never ends a batch that another object opened |
| `BatchModel.ForeignExact` | src/blockchain_db/locked_txn.h:47-48 | An object ends another's batch if and only if a batch is in progress while its own has been ended otherwise than by a successful call of its own; the other object is then a younger one in scope |
| `BatchModel.NoForeignWithoutFailure` | src/blockchain_db/locked_txn.h:41-54 | Without a failed commit nobody ends another's batch |
| `BatchModel.NoForeignFromInnermost` | src/blockchain_db/locked_txn.h:41-54 | If commit and abort are called on the innermost object only, nobody ends another's batch, whatever fails |
| `BatchModel.ForeignHappens` | src/blockchain_db/locked_txn.h:47-47 | A run in which an outer object's second commit makes an inner object's write durable |

## Left out

- The SVG output, the getters and the text of exceptions of the QR Code generator.
- Error correction of the format and version words by their BCH codes: they are computed as in the code and read back undamaged.
- Correcting a damaged symbol: it is proved that at most one data sequence is near enough in every block, not how to find it.
- Kanji segments, which have no factory; strings whose length exceeds an int in the numeric and alphanumeric encoders, where the code's counter would overflow.
- `LONG_MAX` is taken as 2^31-1, the least value it may have; `Penalty.ScoreBound` shows that this is enough.
- Command line, logging, signal handling, serialization and state files of the ancestry tool; a stop request is a function of the block or of the number of transactions taken, and the statistics counters are not modelled.
- Ancestry.AncestryState.Refresh: speaks of chains that only grow between runs (`ChainGrowth.StateKept`); a reorganisation that removes processed blocks would leave their entries in the state.
- Reading blocks, transactions and output keys from the database file and parsing them, with the conversion of relative ring offsets to absolute ones: a record that does not parse, or makes the parser throw, is a missing one.
- Hashes, keys and commitments are names with equality only; what a transaction or block hashes to is part of its value.
- BlockchainDb.BlockchainDb.AddTransactionData: keeps a transaction whole, where the store splits it into a pruned and a prunable part and also stores the hash of the latter; writing and deleting these two records beside the first would only add easy members.
- BlockchainDb.BlockchainDb.AppendRecord: omits weights, difficulty, coins and the timestamp, which are stored as given and read by nothing modelled here.
- The hard-fork table and the timing statistics of the block store.
- BlockchainDb.BlockchainDb.AddTransaction: does not say what a failed call leaves behind, because the caller aborts the batch; `StoreRuns.Step` rolls it back. The same goes for `AddBlock`, `RemoveTransaction` and `PopBlock`.
- A transaction with fewer commitments than outputs where adding it would read them past their end: callers must not pass one (`BlockStore.MasksPresent`).
- BlockchainDb.BlockchainDb.RemoveTransaction: a missing or too short list of output indices is a failure, where the code would read past its end; no reachable state has one.
- Allocation, resizing and disk errors of LMDB, and several threads: a batch is used by one thread, as the comment on the class says.
- Relay methods, `fixup` and transaction-pool categories of the block store; `Sources/`, translations and build scripts.
